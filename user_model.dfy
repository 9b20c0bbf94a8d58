/**
 * The `User` model: schema validation (email pattern, required fields,
 * password minimum length), the `createdAt` default, the pre-save hook
 * that hashes the password, and the collection the documents are saved
 * into, whose unique index on `email` keeps emails distinct.
 */
module UserModel {
  import opened Basics
  import opened Bcrypt

  // ---------------------------------------------------------------------
  // Records and the collection's contents
  // ---------------------------------------------------------------------

  /** A saved user document. `password` holds what the pre-save hook stored. */
  datatype UserRecord = UserRecord(id: UserId, email: string, password: Secret, username: string, createdAt: int)

  /** The fields handed to `User.create`; an absent one is `undefined`. */
  datatype UserFields = UserFields(email: Option<string>, password: Option<string>, username: Option<string>, createdAt: Option<int>)

  /** The collection: documents in insertion order, and the next id to hand out. */
  datatype StoreState = StoreState(docs: seq<UserRecord>, nextId: nat)

  /** Cost factor passed to `bcrypt.hash` by the hook. */
  const SaltRounds: nat := 12

  /** Minimum password length of the schema. */
  const MinPasswordLength: nat := 6

  /** `User.findOne({ email })`: the first document, in insertion order, with that email. */
  function FindByEmail(docs: seq<UserRecord>, email: string): (r: Option<UserRecord>)
    ensures r.Some? ==> r.value in docs && r.value.email == email
    ensures r.None? <==> forall i | 0 <= i < |docs| :: docs[i].email != email
    decreases |docs|
  {
    if docs == [] then None
    else if docs[0].email == email then Some(docs[0])
    else FindByEmail(docs[1..], email)
  }

  /** `User.findById(id)`: the document with that `_id`, if any. */
  function FindById(docs: seq<UserRecord>, id: UserId): (r: Option<UserRecord>)
    ensures r.Some? ==> r.value in docs && r.value.id == id
    ensures r.None? <==> forall i | 0 <= i < |docs| :: docs[i].id != id
    decreases |docs|
  {
    if docs == [] then None
    else if docs[0].id == id then Some(docs[0])
    else FindById(docs[1..], id)
  }

  /** `findOne({ email })` with the request's email; an undefined email matches no document. */
  function FindOne(docs: seq<UserRecord>, email: Option<string>): Option<UserRecord>
  {
    if email.Some? then FindByEmail(docs, email.value) else None
  }

  /** The unique indexes on `_id` and `email`: no two documents share either. */
  predicate Unique(docs: seq<UserRecord>)
  {
    forall i, j | 0 <= i < j < |docs| :: docs[i].email != docs[j].email && docs[i].id != docs[j].id
  }

  /** A well-formed collection: indexes hold and every id was handed out already. */
  predicate StoreValid(st: StoreState)
  {
    Unique(st.docs) && forall i | 0 <= i < |st.docs| :: st.docs[i].id < st.nextId
  }

  /** The indexes admit `rec`: neither its email nor its id is taken. */
  predicate CanInsert(docs: seq<UserRecord>, rec: UserRecord)
  {
    FindByEmail(docs, rec.email).None? && FindById(docs, rec.id).None?
  }

  /** Inserting what the indexes admit keeps emails and ids unique. */
  lemma InsertKeepsUnique(docs: seq<UserRecord>, rec: UserRecord)
    requires Unique(docs) && CanInsert(docs, rec)
    ensures Unique(docs + [rec])
  {
  }

  /** In a well-formed collection two distinct ids never resolve to one email. */
  lemma EmailsAreUnique(st: StoreState, id1: UserId, id2: UserId)
    requires StoreValid(st) && id1 != id2
    requires FindById(st.docs, id1).Some? && FindById(st.docs, id2).Some?
    ensures FindById(st.docs, id1).value.email != FindById(st.docs, id2).value.email
  {
    var r1, r2 := FindById(st.docs, id1).value, FindById(st.docs, id2).value;
    var i :| 0 <= i < |st.docs| && st.docs[i] == r1;
    var j :| 0 <= j < |st.docs| && st.docs[j] == r2;
    assert i != j;
    if i > j {
      assert st.docs[j].email != st.docs[i].email;
    }
  }

  /** Lookup by the id of a document that was just appended finds that document. */
  lemma {:induction false} FindAppended(docs: seq<UserRecord>, rec: UserRecord)
    requires FindById(docs, rec.id).None? && FindByEmail(docs, rec.email).None?
    ensures FindById(docs + [rec], rec.id) == Some(rec)
    ensures FindByEmail(docs + [rec], rec.email) == Some(rec)
    decreases |docs|
  {
    if docs != [] {
      assert (docs + [rec])[1..] == docs[1..] + [rec];
      FindAppended(docs[1..], rec);
    }
  }

  // ---------------------------------------------------------------------
  // The email pattern /.+\@.+\..+/
  // ---------------------------------------------------------------------

  /** The characters `.` in a JavaScript regular expression does not match. */
  predicate IsLineTerminator(c: char)
  {
    c == '\n' || c == '\r' || c == '\U{2028}' || c == '\U{2029}'
  }

  predicate LineFree(t: string)
  {
    forall k | 0 <= k < |t| :: !IsLineTerminator(t[k])
  }

  /** t is exactly x@y.z with x, y, z non-empty and no line terminator anywhere. */
  ghost predicate IsEmailShape(t: string)
  {
    LineFree(t) && exists p, q :: 0 < p && p + 1 < q && q + 1 < |t| && t[p] == '@' && t[q] == '.'
  }

  /** `regex.test(s)` for the unanchored pattern: some substring of s has the email shape. */
  ghost predicate RegexAccepts(s: string)
  {
    exists a, b :: 0 <= a <= b <= |s| && IsEmailShape(s[a..b])
  }

  /**
   * The executable check: an '@' with a character before it and a '.' at
   * least two characters later that still has a character after it, with
   * no line terminator from the first of these characters to the last.
   */
  predicate MatchesEmail(s: string)
    ensures MatchesEmail(s) ==> |s| >= 5
  {
    exists p, q | 0 < p < |s| && 0 < q < |s| ::
      p + 1 < q && q + 1 < |s| && s[p] == '@' && s[q] == '.' && LineFree(s[p - 1..q + 2])
  }

  /** A match `MatchesEmail` finds is a substring of the email shape. */
  lemma MatchesEmailSound(s: string)
    requires MatchesEmail(s)
    ensures RegexAccepts(s)
  {
    var p, q :| 0 < p < |s| && 0 < q < |s| &&
      p + 1 < q && q + 1 < |s| && s[p] == '@' && s[q] == '.' && LineFree(s[p - 1..q + 2]);
    var t := s[p - 1..q + 2];
    assert t[1] == '@' && t[q - p + 1] == '.';
    assert IsEmailShape(t);
  }

  /** Every slice of a line-free string is line-free. */
  lemma LineFreeSlice(t: string, i: nat, j: nat)
    requires LineFree(t) && i <= j <= |t|
    ensures LineFree(t[i..j])
  {
    forall k | 0 <= k < j - i ensures !IsLineTerminator(t[i..j][k]) {
      assert t[i..j][k] == t[i + k];
    }
  }

  /** A slice of a slice is a slice of the whole. */
  lemma SliceOfSlice(s: string, a: nat, b: nat, i: nat, j: nat)
    requires a <= b <= |s| && i <= j <= b - a
    ensures s[a..b][i..j] == s[a + i..a + j]
  {
    forall k | 0 <= k < j - i ensures s[a..b][i..j][k] == s[a + i..a + j][k] {
      assert s[a..b][i..j][k] == s[a..b][i + k] == s[a + i + k];
    }
  }

  /** An '@' and a '.' placed as in the pattern, in a line-free window, satisfy `MatchesEmail`. */
  lemma WitnessMatches(s: string, p: nat, q: nat)
    requires 0 < p && p + 1 < q && q + 1 < |s| && s[p] == '@' && s[q] == '.'
    requires LineFree(s[p - 1..q + 2])
    ensures MatchesEmail(s)
  {
  }

  /** A window `s[a..b]` of the email shape makes `MatchesEmail` hold of `s`. */
  lemma ShapeWindowMatches(s: string, a: nat, b: nat)
    requires a <= b <= |s| && IsEmailShape(s[a..b])
    ensures MatchesEmail(s)
  {
    var t := s[a..b];
    var p', q' :| 0 < p' && p' + 1 < q' && q' + 1 < |t| && t[p'] == '@' && t[q'] == '.';
    LineFreeSlice(t, p' - 1, q' + 2);
    SliceOfSlice(s, a, b, p' - 1, q' + 2);
    WitnessMatches(s, a + p', a + q');
  }

  /** A substring of the email shape satisfies `MatchesEmail`. */
  lemma MatchesEmailComplete(s: string)
    requires RegexAccepts(s)
    ensures MatchesEmail(s)
  {
    var a, b :| 0 <= a <= b <= |s| && IsEmailShape(s[a..b]);
    ShapeWindowMatches(s, a, b);
  }

  /** `MatchesEmail` accepts exactly what the schema's regular expression accepts. */
  lemma MatchesEmailIffRegex(s: string)
    ensures MatchesEmail(s) <==> RegexAccepts(s)
  {
    if MatchesEmail(s) {
      MatchesEmailSound(s);
    }
    if RegexAccepts(s) {
      MatchesEmailComplete(s);
    }
  }

  // ---------------------------------------------------------------------
  // Schema validation
  // ---------------------------------------------------------------------

  /** One failed validator; mongoose reports the first failure of each path. */
  datatype ValidationError =
    | EmailRequired
    | EmailInvalid(value: string)
    | PasswordRequired
    | PasswordTooShort
    | UsernameRequired

  /** The schema path a validator belongs to. */
  function PathOf(e: ValidationError): string
  {
    match e
    case EmailRequired | EmailInvalid(_) => "email"
    case PasswordRequired | PasswordTooShort => "password"
    case UsernameRequired => "username"
  }

  /** The message each validator reports. */
  function Message(e: ValidationError): string
  {
    match e
    case EmailRequired => "Email is required"
    case EmailInvalid(v) => "Path `email` is invalid (" + v + ")."
    case PasswordRequired => "Password is required"
    case PasswordTooShort => "Password must be at least 6 characters long"
    case UsernameRequired => "Username is required"
  }

  /** `required` for a string path fails on undefined and on "". */
  function EmailErrors(email: Option<string>): seq<ValidationError>
  {
    if !Present(email) then [EmailRequired]
    else if !MatchesEmail(email.value) then [EmailInvalid(email.value)]
    else []
  }

  function PasswordErrors(password: Option<Secret>): seq<ValidationError>
  {
    if password.None? || TextLength(password.value) == 0 then [PasswordRequired]
    else if TextLength(password.value) < MinPasswordLength then [PasswordTooShort]
    else []
  }

  function UsernameErrors(username: Option<string>): seq<ValidationError>
  {
    if !Present(username) then [UsernameRequired] else []
  }

  /** Failures of all paths, in schema order; validation passes when there are none. */
  function Validate(email: Option<string>, password: Option<Secret>, username: Option<string>): (r: seq<ValidationError>)
    ensures |r| <= 3
    ensures r == [] ==> Present(email) && Present(username) && password.Some? && TextLength(password.value) >= MinPasswordLength
  {
    EmailErrors(email) + PasswordErrors(password) + UsernameErrors(username)
  }

  /** Mongoose keeps only the first failing validator of a path: no two errors share a path. */
  lemma ValidateOnePerPath(email: Option<string>, password: Option<Secret>, username: Option<string>)
    ensures var r := Validate(email, password, username);
      forall i, j | 0 <= i < j < |r| :: PathOf(r[i]) != PathOf(r[j])
  {
  }

  /** The password a create call hands to the document, as plain text. */
  function PlainPassword(password: Option<string>): Option<Secret>
  {
    if password.Some? then Some(Plain(password.value)) else None
  }

  /**
   * Validation of fresh fields passes exactly when the email matches the
   * pattern, the password is at least 6 UTF-16 code units long and the
   * username is non-empty.
   */
  lemma ValidateAccepts(f: UserFields)
    ensures Validate(f.email, PlainPassword(f.password), f.username) == [] <==>
      && f.email.Some? && RegexAccepts(f.email.value)
      && f.password.Some? && Utf16Length(f.password.value) >= 6
      && Present(f.username)
  {
    if f.email.Some? {
      MatchesEmailIffRegex(f.email.value);
      if RegexAccepts(f.email.value) {
        assert f.email.value != "";
      }
    }
  }

  /** Each missing field is reported with its own message. */
  lemma MissingFieldReported(f: UserFields)
    ensures !Present(f.email) ==> EmailRequired in Validate(f.email, PlainPassword(f.password), f.username)
    ensures Present(f.email) ==> EmailRequired !in Validate(f.email, PlainPassword(f.password), f.username)
    ensures !Present(f.password) ==> PasswordRequired in Validate(f.email, PlainPassword(f.password), f.username)
    ensures Present(f.password) ==> PasswordRequired !in Validate(f.email, PlainPassword(f.password), f.username)
    ensures !Present(f.username) <==> UsernameRequired in Validate(f.email, PlainPassword(f.password), f.username)
    ensures Message(EmailRequired) == "Email is required"
    ensures Message(PasswordRequired) == "Password is required"
    ensures Message(UsernameRequired) == "Username is required"
  {
  }

  /** A non-empty password shorter than 6 UTF-16 code units fails with the minimum-length message. */
  lemma ShortPasswordRejected(f: UserFields)
    requires f.password.Some? && 0 < Utf16Length(f.password.value) < 6
    ensures PasswordTooShort in Validate(f.email, PlainPassword(f.password), f.username)
    ensures Message(PasswordTooShort) == "Password must be at least 6 characters long"
  {
    assert PasswordErrors(PlainPassword(f.password)) == [PasswordTooShort];
  }

  /**
   * The minimum length counts UTF-16 code units: three characters outside
   * the Basic Multilingual Plane already make a long enough password, while
   * five ordinary characters do not.
   */
  lemma PasswordLengthInCodeUnits()
    ensures PasswordErrors(Some(Plain("\U{1F600}\U{1F600}\U{1F600}"))) == []
    ensures PasswordErrors(Some(Plain("abcde"))) == [PasswordTooShort]
  {
  }

  /** The schema's `createdAt` default: the supplied value, else the current time. */
  function DefaultCreatedAt(createdAt: Option<int>, nowMs: nat): (r: int)
    ensures createdAt.Some? ==> r == createdAt.value
    ensures createdAt.None? ==> r == nowMs
  {
    if createdAt.Some? then createdAt.value else nowMs
  }

  // ---------------------------------------------------------------------
  // User.create as a function of the collection
  // ---------------------------------------------------------------------

  /** Why `create` throws: validation failed, or a unique index refused the insert. */
  datatype CreateError = Invalid(errors: seq<ValidationError>) | DuplicateKey

  /** What `create` returned and the collection afterwards. */
  datatype Created = Created(result: Result<UserRecord, CreateError>, store: StoreState)

  /**
   * `User.create(fields)`: a new document takes the next id and the schema
   * defaults, is validated, has its password hashed once by the hook, and is
   * inserted if the indexes admit it.
   */
  function CreateSpec(st: StoreState, f: UserFields, nowMs: nat): Created
  {
    var st' := StoreState(st.docs, st.nextId + 1);
    var errs := Validate(f.email, PlainPassword(f.password), f.username);
    if errs != [] then Created(Failure(Invalid(errs)), st')
    else
      var rec := UserRecord(st.nextId, f.email.value, Hash(Plain(f.password.value), SaltRounds),
                            f.username.value, DefaultCreatedAt(f.createdAt, nowMs));
      if CanInsert(st.docs, rec) then Created(Success(rec), StoreState(st.docs + [rec], st.nextId + 1))
      else Created(Failure(DuplicateKey), st')
  }

  /**
   * `create` succeeds exactly when validation passes and the email is free;
   * it then appends one record holding the given email and username, a single
   * hash of the password, the defaulted `createdAt` and a fresh id; otherwise
   * no document is added.
   */
  lemma CreateOutcome(st: StoreState, f: UserFields, nowMs: nat)
    requires StoreValid(st)
    ensures var c := CreateSpec(st, f, nowMs);
      && (c.result.Success? <==>
          Validate(f.email, PlainPassword(f.password), f.username) == [] && FindOne(st.docs, f.email).None?)
      && (c.result.Success? ==>
          && c.store.docs == st.docs + [c.result.value]
          && c.result.value == UserRecord(st.nextId, f.email.value, Hashed(Plain(f.password.value), 12),
                                          f.username.value, if f.createdAt.Some? then f.createdAt.value else nowMs))
      && (c.result.Failure? ==> c.store.docs == st.docs)
      && StoreValid(c.store)
  {
    var c := CreateSpec(st, f, nowMs);
    if Validate(f.email, PlainPassword(f.password), f.username) == [] {
      assert FindById(st.docs, st.nextId).None?;
      if c.result.Success? {
        InsertKeepsUnique(st.docs, c.result.value);
      }
    }
  }

  /** The password a successful `create` stores is never plain text and verifies the given one. */
  lemma CreateHashesOnce(st: StoreState, f: UserFields, nowMs: nat)
    requires CreateSpec(st, f, nowMs).result.Success?
    ensures var rec := CreateSpec(st, f, nowMs).result.value;
      && !rec.password.Plain?
      && Compare(f.password.value, rec.password)
      && forall p :: Compare(p, rec.password) ==> p == f.password.value
  {
  }

  // ---------------------------------------------------------------------
  // The collection and the document, as objects
  // ---------------------------------------------------------------------

  /** The `users` collection with its unique indexes on `_id` and `email`. */
  class UserCollection {
    var docs: seq<UserRecord>
    var nextId: nat

    function State(): StoreState
      reads this
    {
      StoreState(docs, nextId)
    }

    ghost predicate Valid()
      reads this
    {
      StoreValid(State())
    }

    constructor ()
      ensures Valid() && docs == [] && nextId == 0
    {
      docs, nextId := [], 0;
    }

    /** Hands out the id a new document gets when it is constructed. */
    method FreshId() returns (id: UserId)
      requires Valid()
      modifies this`nextId
      ensures Valid()
      ensures id == old(nextId) && nextId == id + 1
      ensures forall i | 0 <= i < |docs| :: docs[i].id != id
    {
      id := nextId;
      nextId := nextId + 1;
    }

    /** Inserts a document unless a unique index refuses it (a duplicate key error). */
    method Insert(rec: UserRecord) returns (ok: bool)
      requires Valid() && rec.id < nextId
      modifies this`docs
      ensures Valid()
      ensures ok <==> CanInsert(old(docs), rec)
      ensures docs == if ok then old(docs) + [rec] else old(docs)
    {
      ok := FindByEmail(docs, rec.email).None? && FindById(docs, rec.id).None?;
      if ok {
        InsertKeepsUnique(docs, rec);
        docs := docs + [rec];
      }
    }
  }

  /** A document built by `new User(fields)`: the schema default applied, not yet saved. */
  class UserDocument {
    const id: UserId
    var email: Option<string>
    var password: Option<Secret>
    var username: Option<string>
    var createdAt: int

    constructor (id: UserId, f: UserFields, nowMs: nat)
      ensures this.id == id && email == f.email && password == PlainPassword(f.password)
      ensures username == f.username && createdAt == DefaultCreatedAt(f.createdAt, nowMs)
    {
      this.id := id;
      email, password, username := f.email, PlainPassword(f.password), f.username;
      createdAt := DefaultCreatedAt(f.createdAt, nowMs);
    }

    /** What validating the document's current fields reports. */
    function Errors(): seq<ValidationError>
      reads this
    {
      Validate(email, password, username)
    }

    /**
     * The `pre('save')` hook: overwrites the password with its hash, whatever
     * the password holds already; hashing an undefined password throws.
     */
    method PreSave() returns (ok: bool)
      modifies this`password
      ensures ok <==> old(password).Some?
      ensures password == if ok then Some(Hash(old(password).value, SaltRounds)) else old(password)
    {
      ok := password.Some?;
      if ok {
        password := Some(Hash(password.value, SaltRounds));
      }
    }

    /**
     * `save()` of a new document: validation runs first and throws on any
     * failure; then the hook hashes the password; then the collection inserts
     * the record unless a unique index refuses it.
     */
    method Save(coll: UserCollection) returns (r: Result<UserRecord, CreateError>)
      requires coll.Valid() && id < coll.nextId
      modifies this`password, coll`docs
      ensures coll.Valid()
      ensures old(Errors()) != [] ==>
        && r == Failure(Invalid(old(Errors())))
        && password == old(password) && coll.docs == old(coll.docs)
      ensures old(Errors()) == [] ==>
        && password == Some(Hash(old(password).value, SaltRounds))
        && var rec := UserRecord(id, email.value, password.value, username.value, createdAt);
           && (r.Success? <==> CanInsert(old(coll.docs), rec))
           && (r.Success? ==> r.value == rec && coll.docs == old(coll.docs) + [rec])
           && (r.Failure? ==> r.error == DuplicateKey && coll.docs == old(coll.docs))
    {
      var errs := Errors();
      if errs != [] {
        return Failure(Invalid(errs));
      }
      var hashed := PreSave();
      var rec := UserRecord(id, email.value, password.value, username.value, createdAt);
      var inserted := coll.Insert(rec);
      if inserted {
        r := Success(rec);
      } else {
        r := Failure(DuplicateKey);
      }
    }
  }

  /** `User.create(fields)`: construct a document with a fresh id and save it. */
  method Create(coll: UserCollection, f: UserFields, nowMs: nat) returns (r: Result<UserRecord, CreateError>)
    requires coll.Valid()
    modifies coll
    ensures coll.Valid()
    ensures Created(r, coll.State()) == CreateSpec(old(coll.State()), f, nowMs)
  {
    var id := coll.FreshId();
    var doc := new UserDocument(id, f, nowMs);
    r := doc.Save(coll);
  }

  /**
   * The hook has no "password modified" guard: saving a document a second
   * time hashes the stored hash again, after which the original password
   * no longer verifies.
   */
  method SecondSaveRehashes(f: UserFields, nowMs: nat) returns (stored: Option<Secret>)
    requires f.password.Some?
    ensures stored == Some(Hashed(Hashed(Plain(f.password.value), 12), 12))
    ensures !Compare(f.password.value, stored.value)
  {
    var doc := new UserDocument(0, f, nowMs);
    var first := doc.PreSave();
    var second := doc.PreSave();
    stored := doc.password;
    RehashVerifiesNothing(f.password.value, SaltRounds, SaltRounds);
  }
}
