/** The request-body schemas of the API (`auth.joi.ts`, `note.joi.ts`) and
    what each accepts and reports. */
module RequestSchemas {
  import opened Wrappers
  import opened Text
  import opened Http
  import opened Joi
  import opened NoteController

  const EmailRequired := "Email is required."
  const EmailInvalid := "Email must be a valid email address."
  const PasswordRequired := "Password is required."
  const PasswordTooShort := "Password must be at least 6 characters long."
  const TitleRequired := "Title is required."
  const TitleTooShort := "Title must be at least 1 character long."
  const ContentTooShort := "Content must be at least 6 character long."

  const EmailKey := Key("email",
    Schema(StringKind([Email], false),
           map["string.email" := EmailInvalid, "string.empty" := EmailRequired, "any.required" := EmailRequired]),
    true, None)

  /** `registerSchema`. */
  const RegisterSchema: ObjectSchema := [
    EmailKey,
    Key("password",
      Schema(StringKind([MinLength(6)], false),
             map["string.min" := PasswordTooShort, "string.empty" := PasswordRequired, "any.required" := PasswordRequired]),
      true, None)]

  /** `loginSchema`: the same, without a minimum password length. */
  const LoginSchema: ObjectSchema := [
    EmailKey,
    Key("password",
      Schema(StringKind([], false), map["string.empty" := PasswordRequired, "any.required" := PasswordRequired]),
      true, None)]

  /** `createNoteSchema`: the `string.min` message of `content` belongs to no
      rule and is never used. */
  const CreateNoteSchema: ObjectSchema := [
    Key("title",
      Schema(StringKind([], false), map["string.empty" := TitleRequired, "any.required" := TitleRequired]),
      true, None),
    Key("content",
      Schema(StringKind([], true), map["string.min" := "Content must be at least 6 characters long."]),
      false, None)]

  /** `paginationSchema`. */
  const PaginationSchema: ObjectSchema := [
    Key("page", Schema(NumberKind(true, Some(1), None), map[]), false, Some(JNum(1.0))),
    Key("limit", Schema(NumberKind(true, Some(1), Some(100)), map[]), false, Some(JNum(10.0)))]

  /** `updateNoteSchema`. */
  const UpdateNoteSchema: ObjectSchema := [
    Key("title", Schema(StringKind([MinLength(1)], false), map["string.min" := TitleTooShort]), false, None),
    Key("content", Schema(StringKind([MinLength(6)], false), map["string.min" := ContentTooShort]), false, None)]

  /** `updateStatusSchema`. */
  const UpdateStatusSchema: ObjectSchema := [
    Key("isPinned", Schema(BooleanKind, map[]), false, None),
    Key("isArchived", Schema(BooleanKind, map[]), false, None)]

  /** `tagsSchema`. */
  const TagsSchema: ObjectSchema := [
    Key("tags", Schema(ArrayKind(Schema(StringKind([MinLength(1)], false), map[]), Some(1)), map[]), true, None)]

  /** A body of two string members, in this order. */
  function Pair(a: string, x: string, b: string, y: string): Json {
    JObj([(a, JStr(x)), (b, JStr(y))])
  }

  lemma PairFields(a: string, x: string, b: string, y: string)
    requires a != b
    ensures Field(Pair(a, x, b, y).fields, a) == Some(JStr(x))
    ensures Field(Pair(a, x, b, y).fields, b) == Some(JStr(y))
  {
    FieldAt(Pair(a, x, b, y).fields, a, 0);
    FieldAt(Pair(a, x, b, y).fields, b, 1);
  }

  // ------------------------------------------------------------- sign-in

  /** The email member, as both sign-in schemas check it. */
  lemma EmailMember(isEmail: string -> bool, fields: seq<(string, Json)>, e: string)
    requires Field(fields, "email") == Some(JStr(e))
    ensures KeyErrors(isEmail, EmailKey, fields)
         == if e == "" then [EmailRequired] else if isEmail(e) then [] else [EmailInvalid]
  {
    if e != "" {
      StringMember(isEmail, EmailKey, fields, e);
      OneRule(isEmail, EmailKey.schema, Email, e, "email");
    }
  }

  /** The password member of the registration schema. */
  lemma RegisterPasswordMember(isEmail: string -> bool, fields: seq<(string, Json)>, p: string)
    requires Field(fields, "password") == Some(JStr(p))
    ensures KeyErrors(isEmail, RegisterSchema[1], fields)
         == if p == "" then [PasswordRequired] else if |p| >= 6 then [] else [PasswordTooShort]
  {
    var k := RegisterSchema[1];
    if p != "" {
      StringMember(isEmail, k, fields, p);
      OneRule(isEmail, k.schema, MinLength(6), p, "password");
    }
  }

  /** The password member of the login schema. */
  lemma LoginPasswordMember(isEmail: string -> bool, fields: seq<(string, Json)>, p: string)
    requires Field(fields, "password") == Some(JStr(p))
    ensures KeyErrors(isEmail, LoginSchema[1], fields) == if p == "" then [PasswordRequired] else []
  {
    var k := LoginSchema[1];
    if p != "" {
      StringMember(isEmail, k, fields, p);
    }
  }

  /** The errors of a credentials body under either sign-in schema: its two
      members' errors in order, nothing unknown. */
  lemma Credentials(isEmail: string -> bool, keys: ObjectSchema, e: string, p: string)
    requires keys == RegisterSchema || keys == LoginSchema
    ensures Field(Pair("email", e, "password", p).fields, "email") == Some(JStr(e))
    ensures Field(Pair("email", e, "password", p).fields, "password") == Some(JStr(p))
    ensures Errors(isEmail, keys, Pair("email", e, "password", p))
         == KeyErrors(isEmail, keys[0], Pair("email", e, "password", p).fields)
            + KeyErrors(isEmail, keys[1], Pair("email", e, "password", p).fields)
  {
    var fields := Pair("email", e, "password", p).fields;
    PairFields("email", e, "password", p);
    TwoKeys(isEmail, keys, fields);
    assert keys[0].name == "email" && keys[1].name == "password";
    assert Declared(keys, "email") && Declared(keys, "password");
  }

  /** Registration accepts exactly a non-empty, well-formed email and a
      password of at least six characters. */
  lemma RegisterAccepts(isEmail: string -> bool, e: string, p: string)
    ensures Errors(isEmail, RegisterSchema, Pair("email", e, "password", p)) == []
        <==> e != "" && isEmail(e) && |p| >= 6
  {
    Credentials(isEmail, RegisterSchema, e, p);
    EmailMember(isEmail, Pair("email", e, "password", p).fields, e);
    RegisterPasswordMember(isEmail, Pair("email", e, "password", p).fields, p);
  }

  /** Login accepts exactly a non-empty, well-formed email and any non-empty
      password. */
  lemma LoginAccepts(isEmail: string -> bool, e: string, p: string)
    ensures Errors(isEmail, LoginSchema, Pair("email", e, "password", p)) == []
        <==> e != "" && isEmail(e) && p != ""
  {
    Credentials(isEmail, LoginSchema, e, p);
    EmailMember(isEmail, Pair("email", e, "password", p).fields, e);
    LoginPasswordMember(isEmail, Pair("email", e, "password", p).fields, p);
  }

  /** A password of one to five characters signs in but cannot register. */
  lemma ShortPasswordLoginOnly(isEmail: string -> bool, e: string, p: string)
    requires e != "" && isEmail(e) && 1 <= |p| < 6
    ensures Errors(isEmail, LoginSchema, Pair("email", e, "password", p)) == []
    ensures Errors(isEmail, RegisterSchema, Pair("email", e, "password", p)) == [PasswordTooShort]
  {
    LoginAccepts(isEmail, e, p);
    Credentials(isEmail, RegisterSchema, e, p);
    EmailMember(isEmail, Pair("email", e, "password", p).fields, e);
    RegisterPasswordMember(isEmail, Pair("email", e, "password", p).fields, p);
  }

  /** Every violation is reported, in key order: a malformed email and a short
      password give both messages. */
  lemma RegisterReportsEveryViolation(isEmail: string -> bool, e: string, p: string)
    requires e != "" && !isEmail(e) && 1 <= |p| < 6
    ensures Validate(isEmail, RegisterSchema, Pair("email", e, "password", p))
         == [Send(400, ValidationFailed, [EmailInvalid, PasswordTooShort])]
  {
    RegisterViolations(isEmail, e, p);
    ValidateRefuses(isEmail, RegisterSchema, Pair("email", e, "password", p));
  }

  lemma RegisterViolations(isEmail: string -> bool, e: string, p: string)
    requires e != "" && !isEmail(e) && 1 <= |p| < 6
    ensures Errors(isEmail, RegisterSchema, Pair("email", e, "password", p)) == [EmailInvalid, PasswordTooShort]
  {
    var fields := Pair("email", e, "password", p).fields;
    RegisterMembers(isEmail, e, p);
    CredentialsDeclared(RegisterSchema, e, p);
    TwoMessages(isEmail, RegisterSchema, fields, EmailInvalid, PasswordTooShort);
  }

  /** Both members of a credentials body are declared by either sign-in
      schema. */
  lemma CredentialsDeclared(keys: ObjectSchema, e: string, p: string)
    requires keys == RegisterSchema || keys == LoginSchema
    ensures UnknownErrors(keys, Pair("email", e, "password", p).fields) == []
  {
    assert keys[0].name == "email" && keys[1].name == "password";
    assert Declared(keys, "email") && Declared(keys, "password");
  }

  lemma RegisterMembers(isEmail: string -> bool, e: string, p: string)
    requires e != "" && !isEmail(e) && 1 <= |p| < 6
    ensures KeyErrors(isEmail, RegisterSchema[0], Pair("email", e, "password", p).fields) == [EmailInvalid]
    ensures KeyErrors(isEmail, RegisterSchema[1], Pair("email", e, "password", p).fields) == [PasswordTooShort]
  {
    var fields := Pair("email", e, "password", p).fields;
    PairFields("email", e, "password", p);
    EmailMember(isEmail, fields, e);
    RegisterPasswordMember(isEmail, fields, p);
  }

  /** An empty body is refused by both sign-in schemas with both "required"
      messages. */
  lemma MissingCredentials(isEmail: string -> bool)
    ensures Errors(isEmail, RegisterSchema, JObj([])) == [EmailRequired, PasswordRequired]
    ensures Errors(isEmail, LoginSchema, JObj([])) == [EmailRequired, PasswordRequired]
  {
    MissingBoth(isEmail, RegisterSchema);
    MissingBoth(isEmail, LoginSchema);
  }

  lemma MissingBoth(isEmail: string -> bool, keys: ObjectSchema)
    requires keys == RegisterSchema || keys == LoginSchema
    ensures Errors(isEmail, keys, JObj([])) == [EmailRequired, PasswordRequired]
  {
    assert KeyErrors(isEmail, keys[0], []) == [EmailRequired];
    assert KeyErrors(isEmail, keys[1], []) == [PasswordRequired];
    TwoMessages(isEmail, keys, [], EmailRequired, PasswordRequired);
  }

  /** A member the schema does not declare is refused by name, even when the
      credentials themselves are acceptable. */
  lemma UnknownMemberRejected(isEmail: string -> bool, e: string, p: string, name: string, v: Json)
    requires e != "" && isEmail(e) && |p| >= 6
    requires name != "email" && name != "password"
    ensures Errors(isEmail, RegisterSchema, JObj([("email", JStr(e)), ("password", JStr(p)), (name, v)]))
         == [Quote(name) + " is not allowed"]
  {
    var fields := [("email", JStr(e)), ("password", JStr(p)), (name, v)];
    FieldAt(fields, "email", 0);
    FieldAt(fields, "password", 1);
    TwoKeys(isEmail, RegisterSchema, fields);
    EmailMember(isEmail, fields, e);
    RegisterPasswordMember(isEmail, fields, p);
    OnlyLastUnknown(RegisterSchema, fields);
  }

  /** Three members of which only the last is undeclared by a sign-in schema:
      one message, naming it. */
  lemma OnlyLastUnknown(keys: ObjectSchema, fields: seq<(string, Json)>)
    requires keys == RegisterSchema || keys == LoginSchema
    requires |fields| == 3 && fields[0].0 == "email" && fields[1].0 == "password"
    requires fields[2].0 != "email" && fields[2].0 != "password"
    ensures UnknownErrors(keys, fields) == [Quote(fields[2].0) + " is not allowed"]
  {
    assert keys[0].name == "email" && keys[1].name == "password";
    assert Declared(keys, "email") && Declared(keys, "password");
    assert !Declared(keys, fields[2].0);
    LastUnknown(keys, fields);
  }

  // --------------------------------------------------------------- notes

  const TitleEmpty := Quote("title") + " is not allowed to be empty"
  const ContentEmpty := Quote("content") + " is not allowed to be empty"

  /** The errors of a title-and-content body under the create or update
      schema: its two members' errors in order, nothing unknown. */
  lemma NoteBody(isEmail: string -> bool, keys: ObjectSchema, t: string, c: string)
    requires keys == CreateNoteSchema || keys == UpdateNoteSchema
    ensures Field(Pair("title", t, "content", c).fields, "title") == Some(JStr(t))
    ensures Field(Pair("title", t, "content", c).fields, "content") == Some(JStr(c))
    ensures Errors(isEmail, keys, Pair("title", t, "content", c))
         == KeyErrors(isEmail, keys[0], Pair("title", t, "content", c).fields)
            + KeyErrors(isEmail, keys[1], Pair("title", t, "content", c).fields)
  {
    var fields := Pair("title", t, "content", c).fields;
    PairFields("title", t, "content", c);
    TwoKeys(isEmail, keys, fields);
    assert keys[0].name == "title" && keys[1].name == "content";
    assert Declared(keys, "title") && Declared(keys, "content");
  }

  lemma CreateTitleMember(isEmail: string -> bool, fields: seq<(string, Json)>, t: string)
    requires Field(fields, "title") == Some(JStr(t))
    ensures KeyErrors(isEmail, CreateNoteSchema[0], fields) == if t == "" then [TitleRequired] else []
  {
    if t != "" {
      StringMember(isEmail, CreateNoteSchema[0], fields, t);
    }
  }

  lemma CreateContentMember(isEmail: string -> bool, fields: seq<(string, Json)>, c: string)
    requires Field(fields, "content") == Some(JStr(c))
    ensures KeyErrors(isEmail, CreateNoteSchema[1], fields) == []
  {
    if c != "" {
      StringMember(isEmail, CreateNoteSchema[1], fields, c);
    }
  }

  lemma UpdateTitleMember(isEmail: string -> bool, fields: seq<(string, Json)>, t: string)
    requires Field(fields, "title") == Some(JStr(t))
    ensures KeyErrors(isEmail, UpdateNoteSchema[0], fields) == if t == "" then [TitleEmpty] else []
  {
    var k := UpdateNoteSchema[0];
    if t != "" {
      StringMember(isEmail, k, fields, t);
      OneRule(isEmail, k.schema, MinLength(1), t, "title");
    } else {
      assert "string.empty" !in k.schema.messages;
    }
  }

  lemma UpdateContentMember(isEmail: string -> bool, fields: seq<(string, Json)>, c: string)
    requires Field(fields, "content") == Some(JStr(c))
    ensures KeyErrors(isEmail, UpdateNoteSchema[1], fields)
         == if c == "" then [ContentEmpty] else if |c| >= 6 then [] else [ContentTooShort]
  {
    var k := UpdateNoteSchema[1];
    if c != "" {
      StringMember(isEmail, k, fields, c);
      OneRule(isEmail, k.schema, MinLength(6), c, "content");
    } else {
      assert "string.empty" !in k.schema.messages;
    }
  }

  /** A new note needs a non-empty title; its content may be any string, the
      empty string included. */
  lemma CreateNoteAccepts(isEmail: string -> bool, t: string, c: string)
    ensures Errors(isEmail, CreateNoteSchema, Pair("title", t, "content", c)) == [] <==> t != ""
  {
    NoteBody(isEmail, CreateNoteSchema, t, c);
    CreateTitleMember(isEmail, Pair("title", t, "content", c).fields, t);
    CreateContentMember(isEmail, Pair("title", t, "content", c).fields, c);
  }

  /** An update accepts a non-empty title with content of at least six
      characters, and nothing else of this shape. */
  lemma UpdateNoteAccepts(isEmail: string -> bool, t: string, c: string)
    ensures Errors(isEmail, UpdateNoteSchema, Pair("title", t, "content", c)) == [] <==> t != "" && |c| >= 6
  {
    NoteBody(isEmail, UpdateNoteSchema, t, c);
    UpdateTitleMember(isEmail, Pair("title", t, "content", c).fields, t);
    UpdateContentMember(isEmail, Pair("title", t, "content", c).fields, c);
  }

  /** Content of one to five characters is accepted when a note is created
      but refused when it is updated. */
  lemma ShortContentCreateOnly(isEmail: string -> bool, t: string, c: string)
    requires t != "" && 1 <= |c| < 6
    ensures Errors(isEmail, CreateNoteSchema, Pair("title", t, "content", c)) == []
    ensures Errors(isEmail, UpdateNoteSchema, Pair("title", t, "content", c)) == [ContentTooShort]
  {
    CreateNoteAccepts(isEmail, t, c);
    NoteBody(isEmail, UpdateNoteSchema, t, c);
    UpdateTitleMember(isEmail, Pair("title", t, "content", c).fields, t);
    UpdateContentMember(isEmail, Pair("title", t, "content", c).fields, c);
  }

  /** An update with empty content gets Joi's default message, not the
      schema's own. */
  lemma EmptyContentUpdate(isEmail: string -> bool)
    ensures Errors(isEmail, UpdateNoteSchema, JObj([("content", JStr(""))])) == [ContentEmpty]
  {
    var fields := [("content", JStr(""))];
    FieldAt(fields, "content", 0);
    TwoKeys(isEmail, UpdateNoteSchema, fields);
    UpdateContentMember(isEmail, fields, "");
    assert Field(fields, "title").None?;
    assert UpdateNoteSchema[1].name == "content";
    assert Declared(UpdateNoteSchema, "content");
  }

  predicate StartsWithQuote(m: string) {
    |m| > 0 && m[0] == '"'
  }

  /** The update schema's title message is never produced: the only string a
      one-character minimum refuses is the empty one, which Joi refuses first
      with its default message. */
  lemma {:induction false} TitleMinimumNeverReported(isEmail: string -> bool, body: Json)
    ensures TitleTooShort !in Errors(isEmail, UpdateNoteSchema, body)
  {
    if body.JObj? {
      var fields := body.fields;
      var title := KeyErrors(isEmail, UpdateNoteSchema[0], fields);
      var content := KeyErrors(isEmail, UpdateNoteSchema[1], fields);
      assert UpdateNoteSchema == [UpdateNoteSchema[0], UpdateNoteSchema[1]];
      DeclaredPair(isEmail, UpdateNoteSchema[0], UpdateNoteSchema[1], fields);
      UpdateTitleQuoted(isEmail, fields);
      UpdateContentQuoted(isEmail, fields);
      UnknownQuoted(UpdateNoteSchema, fields);
      assert TitleTooShort[0] != '"' && TitleTooShort != ContentTooShort;
    }
  }

  /** Every message about the update title starts with its quoted label. */
  lemma UpdateTitleQuoted(isEmail: string -> bool, fields: seq<(string, Json)>)
    ensures forall m :: m in KeyErrors(isEmail, UpdateNoteSchema[0], fields) ==> StartsWithQuote(m)
  {
    var k := UpdateNoteSchema[0];
    match Field(fields, "title")
    case None =>
    case Some(v) =>
      if v.JStr? && v.str != "" {
        StringMember(isEmail, k, fields, v.str);
        OneRule(isEmail, k.schema, MinLength(1), v.str, "title");
      }
  }

  /** Every message about the update content starts with its quoted label,
      except the schema's own minimum-length message. */
  lemma UpdateContentQuoted(isEmail: string -> bool, fields: seq<(string, Json)>)
    ensures forall m :: m in KeyErrors(isEmail, UpdateNoteSchema[1], fields) ==> StartsWithQuote(m) || m == ContentTooShort
  {
    var k := UpdateNoteSchema[1];
    match Field(fields, "content")
    case None =>
    case Some(v) =>
      if v.JStr? && v.str != "" {
        StringMember(isEmail, k, fields, v.str);
        OneRule(isEmail, k.schema, MinLength(6), v.str, "content");
      }
  }

  /** Every unknown-member message starts with the quoted member name. */
  lemma {:induction false} UnknownQuoted(keys: ObjectSchema, fields: seq<(string, Json)>)
    ensures forall m :: m in UnknownErrors(keys, fields) ==> StartsWithQuote(m)
  {
    if |fields| > 0 {
      UnknownQuoted(keys, fields[1..]);
    }
  }

  /** The status schema accepts the empty body, and a flag exactly when it is a
      boolean or the string `true` or `false` in any letter case. */
  lemma StatusAccepts(isEmail: string -> bool, v: Json)
    ensures Errors(isEmail, UpdateStatusSchema, JObj([])) == []
    ensures Errors(isEmail, UpdateStatusSchema, JObj([("isPinned", v)])) == [] <==> BooleanOf(v).Some?
  {
    var body := JObj([("isPinned", v)]);
    NoneRequired(isEmail, UpdateStatusSchema);
    FirstOfTwoAccepts(isEmail, UpdateStatusSchema, v);
    assert UpdateStatusSchema[0].schema.kind == BooleanKind;
    assert ObjectAccepts(isEmail, UpdateStatusSchema, body) <==> BooleanOf(v).Some?;
  }

  /** `{"isPinned": "true"}` passes validation, yet the status handler, which
      copies only JSON booleans, leaves the note as it was: the converted
      value is not what reaches the handler. */
  lemma StringFlagPassesButIsIgnored(isEmail: string -> bool, n: Note)
    ensures Validate(isEmail, UpdateStatusSchema, JObj([("isPinned", JStr("true"))])) == [Next]
    ensures Apply(n, SetStatus(Some(JStr("true")), None)) == n
  {
    StringFlagPasses(isEmail);
    StatusCopiesOnlyBooleans(n, Some(JStr("true")), None);
  }

  lemma StringFlagPasses(isEmail: string -> bool)
    ensures ObjectAccepts(isEmail, UpdateStatusSchema, JObj([("isPinned", JStr("true"))]))
  {
    assert Lower("true") == "true";
    assert BooleanOf(JStr("true")).Some?;
    StatusAccepts(isEmail, JStr("true"));
  }

  /** The tags schema accepts exactly a non-empty array of non-empty strings. */
  lemma TagsAccepts(isEmail: string -> bool, v: Json)
    ensures Errors(isEmail, TagsSchema, JObj([("tags", v)])) == []
        <==> && v.JArr? && |v.items| >= 1
             && forall i :: 0 <= i < |v.items| ==> v.items[i].JStr? && v.items[i].str != ""
  {
    var fields := [("tags", v)];
    FieldAt(fields, "tags", 0);
    assert TagsSchema[0].name == "tags";
    assert Declared(TagsSchema, "tags");
  }

  /** Whatever passes the tags schema also passes the handler's own check, so
      the handler's "Tags must be an array of strings." is never sent after
      validation. */
  lemma ValidatedTagsAreStrings(isEmail: string -> bool, body: Json)
    requires Validate(isEmail, TagsSchema, body) == [Next]
    ensures ValidTags(Field(body.fields, "tags"))
  {
    assert KeyAccepts(isEmail, TagsSchema[0], body.fields);
    assert TagsSchema[0].name == "tags";
  }

  /** A missing tag list and an empty one, with their messages. */
  lemma TagsMissingOrEmpty(isEmail: string -> bool)
    ensures Errors(isEmail, TagsSchema, JObj([])) == [Quote("tags") + " is required"]
    ensures Errors(isEmail, TagsSchema, JObj([("tags", JArr([]))]))
         == [Quote("tags") + " must contain at least " + Decimal(1) + " items"]
  {
    OneKey(isEmail, TagsSchema, []);
    TagsEmpty(isEmail);
  }

  lemma TagsEmpty(isEmail: string -> bool)
    ensures Errors(isEmail, TagsSchema, JObj([("tags", JArr([]))]))
         == [Quote("tags") + " must contain at least " + Decimal(1) + " items"]
  {
    var fields := [("tags", JArr([]))];
    FieldAt(fields, "tags", 0);
    OneKey(isEmail, TagsSchema, fields);
    var k := TagsSchema[0];
    assert k.name == "tags" && Declared(TagsSchema, "tags");
    assert UnknownErrors(TagsSchema, fields) == [];
    assert KeyErrors(isEmail, k, fields) == ValueErrors(isEmail, k.schema, JArr([]), "tags");
    EmptyArrayTooShort(isEmail, k.schema, "tags");
  }

  /** Pagination accepts the empty query and exactly integral page numbers of
      at least 1 with integral limits from 1 to 100. */
  lemma PaginationAccepts(isEmail: string -> bool, p: real, l: real)
    ensures Errors(isEmail, PaginationSchema, JObj([])) == []
    ensures Errors(isEmail, PaginationSchema, JObj([("page", JNum(p)), ("limit", JNum(l))])) == []
        <==> IsInteger(p) && p >= 1.0 && IsInteger(l) && 1.0 <= l <= 100.0
  {
    EmptyQuery(isEmail);
    var fields := [("page", JNum(p)), ("limit", JNum(l))];
    TwoKeysAccept(isEmail, PaginationSchema, fields);
    PageKey(isEmail, p, l);
    LimitKey(isEmail, p, l);
  }

  lemma PageKey(isEmail: string -> bool, p: real, l: real)
    ensures KeyAccepts(isEmail, PaginationSchema[0], [("page", JNum(p)), ("limit", JNum(l))])
        <==> IsInteger(p) && p >= 1.0
  {
    FieldAt([("page", JNum(p)), ("limit", JNum(l))], "page", 0);
  }

  lemma LimitKey(isEmail: string -> bool, p: real, l: real)
    ensures KeyAccepts(isEmail, PaginationSchema[1], [("page", JNum(p)), ("limit", JNum(l))])
        <==> IsInteger(l) && 1.0 <= l <= 100.0
  {
    FieldAt([("page", JNum(p)), ("limit", JNum(l))], "limit", 1);
  }

  lemma EmptyQuery(isEmail: string -> bool)
    ensures ObjectAccepts(isEmail, PaginationSchema, JObj([]))
  {
    assert KeyAccepts(isEmail, PaginationSchema[0], []) && KeyAccepts(isEmail, PaginationSchema[1], []);
  }

  /** Joi fills in `page: 1` and `limit: 10` for an empty query, but the
      middleware forwards the body as sent, without them. */
  lemma PaginationDefaultsNotForwarded(isEmail: string -> bool)
    ensures Validate(isEmail, PaginationSchema, JObj([])) == [Next]
    ensures Converted(PaginationSchema, JObj([])) == JObj([("page", JNum(1.0)), ("limit", JNum(10.0))])
  {
    EmptyQuery(isEmail);
    assert Defaults(PaginationSchema[2..], []) == [];
  }
}
