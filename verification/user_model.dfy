/** The `User` document: its schema rules (email set to lower case and trimmed,
    matched against `/.+@.+\..+/`, unique; password required, at least 6
    characters, hidden from queries), the pre-save hook that hashes a modified
    password, `comparePassword`, and the collection as the handlers query it. */
module UserModel {
  import opened Wrappers
  import opened Text
  import Codec
  import opened Seqs

  // ---------------------------------------------------------------- ObjectId

  predicate IsHexDigit(ch: char) {
    ('0' <= ch <= '9') || ('a' <= ch <= 'f') || ('A' <= ch <= 'F')
  }

  /** `mongoose.Types.ObjectId.isValid` on a string: 24 hexadecimal digits. A
      string that is not an ObjectId makes a query on `_id` or `owner` fail
      with a `CastError`. */
  predicate IsObjectId(s: string) {
    |s| == 24 && forall i :: 0 <= i < |s| ==> IsHexDigit(s[i])
  }

  /** The ObjectId a valid string casts to, in its stored (lower-case) hex
      form: a query matches regardless of the case of the hex digits. */
  function CastObjectId(s: string): (r: string)
    requires IsObjectId(s)
    ensures IsObjectId(r) && Lower(r) == r
  {
    var r := Lower(s);
    assert forall i :: 0 <= i < |r| ==> LowerChar(r[i]) == r[i];
    assert Lower(r) == r;
    r
  }

  // ------------------------------------------------------------------ bcrypt

  /** `bcrypt.genSalt(10)` output begins with this version and cost. */
  const BcryptPrefix := "$2a$10$"

  /** `bcrypt.hash(plain, salt)`: an abstract digest that determines its
      preimage. No strength is claimed for it. */
  function Hash(plain: string, salt: nat): (h: string)
    ensures StartsWith(h, BcryptPrefix) && |h| > |BcryptPrefix|
  {
    Codec.DecodeEncode([Decimal(salt), plain]);
    BcryptPrefix + Codec.Encode([Decimal(salt), plain])
  }

  /** `bcrypt.compare(candidate, stored)`: throws when there is no stored hash
      (a password that was not selected, or a user without one); a stored string
      that is not a digest never matches. */
  function Compare(candidate: string, stored: Option<string>): (r: Result<bool>)
    ensures r.Failure? <==> stored.None?
    ensures stored.Some? && !StartsWith(stored.value, BcryptPrefix) ==> r == Success(false)
  {
    match stored
    case None => Failure("Illegal arguments: string, undefined")
    case Some(h) =>
      if !StartsWith(h, BcryptPrefix) then Success(false)
      else match Codec.Decode(h[|BcryptPrefix|..])
        case Some(fields) => Success(|fields| == 2 && fields[1] == candidate)
        case None => Success(false)
  }

  lemma CompareHashAll(candidate: string)
    ensures forall salt: nat :: Compare(candidate, Some(Hash(candidate, salt))) == Success(true)
  {
    forall salt: nat ensures Compare(candidate, Some(Hash(candidate, salt))) == Success(true) {
      CompareHash(candidate, candidate, salt);
    }
  }

  /** A candidate matches a stored digest exactly when it is the password that
      was hashed, whatever the salt. */
  lemma CompareHash(candidate: string, plain: string, salt: nat)
    ensures Compare(candidate, Some(Hash(plain, salt))) == Success(candidate == plain)
  {
    var h := Hash(plain, salt);
    assert h[|BcryptPrefix|..] == Codec.Encode([Decimal(salt), plain]);
    Codec.DecodeEncode([Decimal(salt), plain]);
  }

  // -------------------------------------------------------------- the record

  /** A stored user. `password` holds the digest text and is absent for users
      created through Google; `googleId` and `provider` are the fields the Google
      strategy reads and writes. */
  datatype User = User(
    id: string,
    email: string,
    password: Option<string>,
    googleId: Option<string>,
    provider: Option<string>,
    isActive: bool,
    isDeleted: bool)

  /** The `lowercase: true` and `trim: true` setters, in that order; they run
      both when a document is built and when a query on `email` is cast. */
  function NormalizeEmail(s: string): (r: string)
    ensures forall i :: 0 <= i < |r| ==> !('A' <= r[i] <= 'Z')
    ensures |r| > 0 ==> !IsSpace(r[0]) && !IsSpace(r[|r| - 1])
  {
    TrimIdempotent(Lower(s));
    TrimKeepsChars(Lower(s));
    Trim(Lower(s))
  }

  lemma TrimKeepsChars(s: string)
    ensures forall c :: c in Trim(s) ==> c in s
  {
    var ts := TrimStart(s);
    var t := Trim(s);
    forall c | c in t
      ensures c in s
    {
      var k :| 0 <= k < |t| && t[k] == c;
      assert t[k] == ts[k];
      assert ts[k] == s[|s| - |ts| + k];
    }
  }

  lemma LowerHasNoUpper(s: string)
    ensures forall c :: c in Lower(s) ==> LowerChar(c) == c && !('A' <= c <= 'Z')
  {
    forall c | c in Lower(s)
      ensures LowerChar(c) == c && !('A' <= c <= 'Z')
    {
      var k :| 0 <= k < |s| && Lower(s)[k] == c;
      assert c == LowerChar(s[k]);
    }
  }

  /** Normalising twice is normalising once, and a normalised email has no
      upper-case ASCII letter and no surrounding white space. */
  lemma NormalizeEmailIdempotent(s: string)
    ensures NormalizeEmail(NormalizeEmail(s)) == NormalizeEmail(s)
    ensures var e := NormalizeEmail(s);
      forall k :: 0 <= k < |e| ==> !('A' <= e[k] <= 'Z')
  {
    var l := Lower(s);
    var t := Trim(l);
    NormalizedIsLower(s);
    assert Lower(t) == t;
    TrimIdempotent(l);
  }

  /** Every character of a normalised email is its own lower case. */
  lemma NormalizedIsLower(s: string)
    ensures forall c :: c in NormalizeEmail(s) ==> LowerChar(c) == c && !('A' <= c <= 'Z')
  {
    TrimKeepsChars(Lower(s));
    LowerHasNoUpper(s);
  }

  /** The schema's `match: /.+@.+\..+/` at a given `@` (index `a`) and `.`
      (index `d`): one character before the `@`, at least one between the `@`
      and the `.`, one after it, none of them a line terminator (what `.`
      refuses). The expression is not anchored, so it may match anywhere. */
  predicate EmailPatternAt(s: string, a: int, d: int) {
    && 0 < a && a + 1 < d && d + 1 < |s|
    && s[a] == '@' && s[d] == '.'
    && !IsLineTerminator(s[a - 1])
    && (forall k | a < k < d :: !IsLineTerminator(s[k]))
    && !IsLineTerminator(s[d + 1])
  }

  predicate MatchesEmailPattern(s: string) {
    exists a, d | 0 <= a < |s| && 0 <= d < |s| :: EmailPatternAt(s, a, d)
  }

  /** Anything the pattern accepts has at least five characters, an `@` and a
      `.` after it; `"u@x.com"` is accepted and `"a@b"` is not. */
  lemma EmailPatternShape(s: string)
    ensures MatchesEmailPattern(s) ==> |s| >= 5 && '@' in s && '.' in s
    ensures MatchesEmailPattern("u@x.com")
    ensures !MatchesEmailPattern("a@b")
  {
    assert EmailPatternAt("u@x.com", 1, 3);
  }

  /** The `email` path's validators (`required`, then `match`), with the
      schema's messages, on the value after the setters. Only the first failing
      validator of a path is reported. */
  function EmailErrors(email: string): (errs: seq<string>)
    ensures |errs| <= 1
    ensures |errs| == 0 <==> email != "" && MatchesEmailPattern(email)
  {
    if email == "" then ["Email is required"]
    else if !MatchesEmailPattern(email) then ["Please enter a valid email address"]
    else []
  }

  /** The `password` path's validators (`required`, then `minlength: 6`) on the
      plain text: validation runs before the pre-save hook. */
  function PasswordErrors(password: Option<string>): (errs: seq<string>)
    ensures |errs| <= 1
    ensures |errs| == 0 <==> password.Some? && |password.value| >= 6
  {
    if password.None? || password.value == "" then ["Password is required"]
    else if |password.value| < 6 then ["Password must be at least 6 characters long"]
    else []
  }

  /** All of the schema's validators for a user document, in declaration order. */
  function ValidationErrors(email: string, password: Option<string>): (errs: seq<string>)
    ensures |errs| == 0 <==>
      email != "" && MatchesEmailPattern(email) && password.Some? && |password.value| >= 6
    ensures password.None? ==> "Password is required" in errs
  {
    EmailErrors(email) + PasswordErrors(password)
  }

  /** The pre-save hook: a modified password is replaced by its digest; an
      unmodified one is left exactly as stored. A modified but missing password
      makes `bcrypt.hash` throw. */
  function PreSave(password: Option<string>, modified: bool, salt: nat): (r: Result<Option<string>>)
    ensures !modified ==> r == Success(password)
    ensures modified && password.Some? ==> r == Success(Some(Hash(password.value, salt)))
    ensures modified && password.None? ==> r.Failure?
  {
    if !modified then Success(password)
    else match password
      case None => Failure("Illegal arguments: undefined, string")
      case Some(p) => Success(Some(Hash(p, salt)))
  }

  /** Saving again without touching the password keeps the digest of the first
      save, so the stored password still compares equal to the original. */
  lemma ResaveKeepsDigest(plain: string, salt1: nat, salt2: nat, candidate: string)
    ensures var first := PreSave(Some(plain), true, salt1).value;
      && PreSave(first, false, salt2) == Success(first)
      && Compare(candidate, PreSave(first, false, salt2).value) == Success(candidate == plain)
  {
    CompareHash(candidate, plain, salt1);
  }

  /** `comparePassword(candidate)` on a user document as loaded. */
  function ComparePassword(u: User, candidate: string): (r: Result<bool>)
    ensures r.Failure? <==> u.password.None?
    ensures forall salt: nat :: u.password == Some(Hash(candidate, salt)) ==> r == Success(true)
  {
    CompareHashAll(candidate);
    Compare(candidate, u.password)
  }

  // -------------------------------------------------------------- collection

  /** The collection in natural (insertion) order, which is the order `findOne`
      scans. */
  type Store = seq<User>

  /** The unique indexes on `_id` and `email`. */
  predicate WellFormed(store: Store) {
    forall i, j :: 0 <= i < j < |store| ==>
      store[i].id != store[j].id && store[i].email != store[j].email
  }

  /** `select: false`: the password is left out of a query result unless it
      was asked for with `select("+password")`. */
  function Project(u: User, selectPassword: bool): (r: User)
    ensures r.password == (if selectPassword then u.password else None)
    ensures r.(password := u.password) == u
  {
    if selectPassword then u else u.(password := None)
  }

  /** `User.findOne({email})`, the filter value normalised by the setters. */
  function FindByEmail(store: Store, email: string, selectPassword: bool): (r: Option<User>)
    ensures r.Some? <==> exists i :: 0 <= i < |store| && store[i].email == NormalizeEmail(email)
    ensures r.Some? ==> r.value.email == NormalizeEmail(email)
  {
    match FirstIndex(store, (u: User) => u.email == NormalizeEmail(email))
    case Some(i) => Some(Project(store[i], selectPassword))
    case None => None
  }

  /** `User.findById(id)`: a `CastError` for a string that is not an ObjectId;
      otherwise the record with that ObjectId, password not selected. */
  function FindById(store: Store, id: string): (r: Result<Option<User>>)
    ensures r.Failure? <==> !IsObjectId(id)
    ensures r.Success? && r.value.Some? ==> r.value.value.id == CastObjectId(id) && r.value.value.password.None?
    ensures r.Success? ==> (r.value.Some? <==> exists i :: 0 <= i < |store| && store[i].id == CastObjectId(id))
  {
    if !IsObjectId(id) then Failure("CastError: Cast to ObjectId failed")
    else match FirstIndex(store, (u: User) => u.id == CastObjectId(id))
      case Some(i) => Success(Some(Project(store[i], false)))
      case None => Success(None)
  }

  const DuplicateKey := "E11000 duplicate key error"

  /** Inserting a document: the unique indexes refuse a second document with
      the same `_id` or the same `email`. */
  function Insert(store: Store, u: User): (r: Result<Store>)
    ensures r.Failure? <==> exists i :: 0 <= i < |store| && (store[i].id == u.id || store[i].email == u.email)
    ensures r.Success? ==> r.value == store + [u]
    ensures WellFormed(store) && r.Success? ==> WellFormed(r.value)
  {
    if exists i :: 0 <= i < |store| && (store[i].id == u.id || store[i].email == u.email) then
      Failure(DuplicateKey)
    else
      Success(store + [u])
  }

  /** Appending a record whose id and email are new keeps the collection well
      formed. */
  lemma AppendFresh(store: Store, u: User)
    requires WellFormed(store)
    requires forall i :: 0 <= i < |store| ==> store[i].id != u.id && store[i].email != u.email
    ensures WellFormed(store + [u]) && (store + [u])[|store|] == u
  {
  }

  /** Writing back a loaded document in place (`doc.save()` on an existing
      record): only that record changes. */
  function Replace(store: Store, i: nat, u: User): (r: Store)
    requires i < |store|
    ensures |r| == |store| && r[i] == u
    ensures forall j :: 0 <= j < |store| && j != i ==> r[j] == store[j]
    ensures WellFormed(store) && u.id == store[i].id && u.email == store[i].email ==> WellFormed(r)
  {
    store[i := u]
  }
}
