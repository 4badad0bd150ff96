/** The part of Joi the request schemas use, as an interpreter over JSON
    bodies, and the `validate(schema)` middleware built on it. Joi runs with
    `abortEarly: false`, so every violation is reported, in the order Joi
    finds them: the declared keys in declaration order (for each, the type
    check, then the rules in the order they were chained), then every body
    member the schema does not declare. Email syntax is a parameter: Joi's
    address grammar and top-level-domain list are not modelled. */
module Joi {
  import opened Wrappers
  import opened Text
  import opened Seqs
  import opened Http

  /** A rule on a non-empty string: `.email()` or `.min(limit)`. */
  datatype StringRule = Email | MinLength(limit: nat)

  /** `Joi.string()` (`allowEmpty` is `.allow("")`), `Joi.number()`,
      `Joi.boolean()` and `Joi.array().items(..)`. */
  datatype Kind =
    | StringKind(rules: seq<StringRule>, allowEmpty: bool)
    | NumberKind(integer: bool, min: Option<nat>, max: Option<nat>)
    | BooleanKind
    | ArrayKind(items: Schema, minItems: Option<nat>)

  /** A schema with its `.messages({...})` overrides, keyed by error code. */
  datatype Schema = Schema(kind: Kind, messages: map<string, string>)

  /** One key of `Joi.object({...})`: `.required()` or optional, with an
      optional `.default(..)`. */
  datatype Key = Key(name: string, schema: Schema, required: bool, default: Option<Json>)

  type ObjectSchema = seq<Key>

  /** Joi wraps labels in double quotes in its default messages. */
  function Quote(path: string): string {
    "\"" + path + "\""
  }

  /** The message of error `code`: the schema's override, else Joi's default
      template for the path. */
  function Report(s: Schema, code: string, path: string, template: string): string {
    if code in s.messages then s.messages[code] else Quote(path) + template
  }

  // ----------------------------------------------------------- conversion

  /** Joi's number conversion (`convert` is on): a JSON number, or a string
      of decimal digits. */
  function NumberOf(v: Json): Option<real> {
    match v
    case JNum(x) => Some(x)
    case JStr(t) => if |t| > 0 && AllDigits(t) then Some(DecimalValue(t) as real) else None
    case _ => None
  }

  /** Joi's boolean conversion: a JSON boolean, or the strings `true` and
      `false` in any letter case. */
  function BooleanOf(v: Json): Option<bool> {
    match v
    case JBool(b) => Some(b)
    case JStr(t) =>
      if Lower(t) == "true" then Some(true)
      else if Lower(t) == "false" then Some(false)
      else None
    case _ => None
  }

  predicate IsInteger(x: real) {
    x.Floor as real == x
  }

  // ------------------------------------------------ reference acceptance

  predicate RulePasses(isEmail: string -> bool, rule: StringRule, s: string) {
    match rule
    case Email => isEmail(s)
    case MinLength(n) => |s| >= n
  }

  /** What a schema accepts, stated directly: no error messages involved. */
  predicate Accepts(isEmail: string -> bool, s: Schema, v: Json)
    decreases s
  {
    match s.kind
    case StringKind(rules, allowEmpty) =>
      && v.JStr?
      && (if v.str == "" then allowEmpty
          else forall i :: 0 <= i < |rules| ==> RulePasses(isEmail, rules[i], v.str))
    case NumberKind(integer, min, max) =>
      && NumberOf(v).Some?
      && (integer ==> IsInteger(NumberOf(v).value))
      && (min.Some? ==> NumberOf(v).value >= min.value as real)
      && (max.Some? ==> NumberOf(v).value <= max.value as real)
    case BooleanKind => BooleanOf(v).Some?
    case ArrayKind(items, minItems) =>
      && v.JArr?
      && (forall i :: 0 <= i < |v.items| ==> Accepts(isEmail, items, v.items[i]))
      && (minItems.Some? ==> |v.items| >= minItems.value)
  }

  /** The value of body member `name`, if present. */
  function Field(fields: seq<(string, Json)>, name: string): (r: Option<Json>)
    ensures r.Some? <==> exists i :: 0 <= i < |fields| && fields[i].0 == name
    ensures r.Some? ==> exists i :: 0 <= i < |fields| && fields[i] == (name, r.value)
  {
    match FirstIndex(fields, NameIs(name))
    case None => None
    case Some(i) => Some(fields[i].1)
  }

  function NameIs(name: string): ((string, Json)) -> bool {
    (f: (string, Json)) => f.0 == name
  }

  /** The first member with a name is the one read. */
  lemma FieldAt(fields: seq<(string, Json)>, name: string, i: nat)
    requires i < |fields| && fields[i].0 == name
    requires forall j :: 0 <= j < i ==> fields[j].0 != name
    ensures Field(fields, name) == Some(fields[i].1)
  {
    FirstIndexAt(fields, NameIs(name), i);
  }

  predicate Declared(keys: ObjectSchema, name: string) {
    exists i :: 0 <= i < |keys| && keys[i].name == name
  }

  predicate KeyAccepts(isEmail: string -> bool, k: Key, fields: seq<(string, Json)>) {
    match Field(fields, k.name)
    case None => !k.required
    case Some(v) => Accepts(isEmail, k.schema, v)
  }

  /** What an object schema accepts: an object whose declared keys are present
      when required and valid when present, with no other members. */
  predicate ObjectAccepts(isEmail: string -> bool, keys: ObjectSchema, body: Json) {
    && body.JObj?
    && (forall i :: 0 <= i < |keys| ==> KeyAccepts(isEmail, keys[i], body.fields))
    && (forall j :: 0 <= j < |body.fields| ==> Declared(keys, body.fields[j].0))
  }

  // ------------------------------------------------------------ messages

  function RuleMessage(s: Schema, rule: StringRule, path: string): string {
    match rule
    case Email => Report(s, "string.email", path, " must be a valid email")
    case MinLength(n) =>
      Report(s, "string.min", path, " length must be at least " + Decimal(n) + " characters long")
  }

  /** The failed rules of a non-empty string, one message each, in chain order. */
  function RuleErrors(isEmail: string -> bool, s: Schema, rules: seq<StringRule>, str: string, path: string): (errs: seq<string>)
    ensures |errs| <= |rules|
    ensures errs == [] <==> forall i :: 0 <= i < |rules| ==> RulePasses(isEmail, rules[i], str)
  {
    if |rules| == 0 then []
    else
      (if RulePasses(isEmail, rules[0], str) then [] else [RuleMessage(s, rules[0], path)])
      + RuleErrors(isEmail, s, rules[1..], str, path)
  }

  function NumberErrors(s: Schema, x: real, path: string): (errs: seq<string>)
    requires s.kind.NumberKind?
    ensures errs == [] <==>
      && (s.kind.integer ==> IsInteger(x))
      && (s.kind.min.Some? ==> x >= s.kind.min.value as real)
      && (s.kind.max.Some? ==> x <= s.kind.max.value as real)
  {
    var k := s.kind;
    (if k.integer && !IsInteger(x) then [Report(s, "number.integer", path, " must be an integer")] else [])
    + (if k.min.Some? && x < k.min.value as real
       then [Report(s, "number.min", path, " must be greater than or equal to " + Decimal(k.min.value))] else [])
    + (if k.max.Some? && x > k.max.value as real
       then [Report(s, "number.max", path, " must be less than or equal to " + Decimal(k.max.value))] else [])
  }

  /** Every violation of `s` by value `v` at `path`. */
  function ValueErrors(isEmail: string -> bool, s: Schema, v: Json, path: string): (errs: seq<string>)
    ensures errs == [] <==> Accepts(isEmail, s, v)
    decreases s, 0
  {
    match s.kind
    case StringKind(rules, allowEmpty) =>
      if !v.JStr? then [Report(s, "string.base", path, " must be a string")]
      else if v.str == "" then
        (if allowEmpty then [] else [Report(s, "string.empty", path, " is not allowed to be empty")])
      else RuleErrors(isEmail, s, rules, v.str, path)
    case NumberKind(_, _, _) =>
      (match NumberOf(v)
       case None => [Report(s, "number.base", path, " must be a number")]
       case Some(x) => NumberErrors(s, x, path))
    case BooleanKind =>
      if BooleanOf(v).None? then [Report(s, "boolean.base", path, " must be a boolean")] else []
    case ArrayKind(items, minItems) =>
      if !v.JArr? then [Report(s, "array.base", path, " must be an array")]
      else
        ItemErrors(isEmail, items, v.items, path, 0)
        + (if minItems.Some? && |v.items| < minItems.value
           then [Report(s, "array.min", path, " must contain at least " + Decimal(minItems.value) + " items")]
           else [])
  }

  /** The violations of the array items `vs`, the first of which sits at
      index `at`; an item is labelled `path[index]`. */
  function ItemErrors(isEmail: string -> bool, items: Schema, vs: seq<Json>, path: string, at: nat): (errs: seq<string>)
    ensures errs == [] <==> forall i :: 0 <= i < |vs| ==> Accepts(isEmail, items, vs[i])
    decreases items, |vs|
  {
    if |vs| == 0 then []
    else
      ValueErrors(isEmail, items, vs[0], path + "[" + Decimal(at) + "]")
      + ItemErrors(isEmail, items, vs[1..], path, at + 1)
  }

  function KeyErrors(isEmail: string -> bool, k: Key, fields: seq<(string, Json)>): (errs: seq<string>)
    ensures errs == [] <==> KeyAccepts(isEmail, k, fields)
  {
    match Field(fields, k.name)
    case None => if k.required then [Report(k.schema, "any.required", k.name, " is required")] else []
    case Some(v) => ValueErrors(isEmail, k.schema, v, k.name)
  }

  function DeclaredErrors(isEmail: string -> bool, keys: ObjectSchema, fields: seq<(string, Json)>): (errs: seq<string>)
    ensures errs == [] <==> forall i :: 0 <= i < |keys| ==> KeyAccepts(isEmail, keys[i], fields)
  {
    if |keys| == 0 then []
    else KeyErrors(isEmail, keys[0], fields) + DeclaredErrors(isEmail, keys[1..], fields)
  }

  /** One `"name" is not allowed` per body member the schema does not declare,
      in body order. */
  function UnknownErrors(keys: ObjectSchema, fields: seq<(string, Json)>): (errs: seq<string>)
    ensures |errs| <= |fields|
    ensures errs == [] <==> forall j :: 0 <= j < |fields| ==> Declared(keys, fields[j].0)
  {
    if |fields| == 0 then []
    else
      (if Declared(keys, fields[0].0) then [] else [Quote(fields[0].0) + " is not allowed"])
      + UnknownErrors(keys, fields[1..])
  }

  /** `schema.validate(body, {abortEarly: false}).error.details`, as messages:
      empty exactly when the schema accepts the body. */
  function Errors(isEmail: string -> bool, keys: ObjectSchema, body: Json): (errs: seq<string>)
    ensures errs == [] <==> ObjectAccepts(isEmail, keys, body)
  {
    if !body.JObj? then [Quote("value") + " must be of type object"]
    else DeclaredErrors(isEmail, keys, body.fields) + UnknownErrors(keys, body.fields)
  }

  // ------------------------------------------- evaluating a given schema

  /** A schema of two keys reports the first key's violations, then the
      second's, then the unknown members. */
  lemma TwoKeys(isEmail: string -> bool, keys: ObjectSchema, fields: seq<(string, Json)>)
    requires |keys| == 2
    ensures Errors(isEmail, keys, JObj(fields))
         == KeyErrors(isEmail, keys[0], fields) + KeyErrors(isEmail, keys[1], fields)
            + UnknownErrors(keys, fields)
  {
    assert keys == [keys[0], keys[1]];
    DeclaredPair(isEmail, keys[0], keys[1], fields);
  }

  lemma DeclaredPair(isEmail: string -> bool, k0: Key, k1: Key, fields: seq<(string, Json)>)
    ensures DeclaredErrors(isEmail, [k0, k1], fields) == KeyErrors(isEmail, k0, fields) + KeyErrors(isEmail, k1, fields)
  {
    assert [k0, k1][1..] == [k1];
    DeclaredSingle(isEmail, k1, fields);
  }

  /** A schema of two keys, each refusing with one message, and no unknown
      members: exactly those two messages, in key order. */
  lemma TwoMessages(isEmail: string -> bool, keys: ObjectSchema, fields: seq<(string, Json)>, a: string, b: string)
    requires |keys| == 2
    requires KeyErrors(isEmail, keys[0], fields) == [a] && KeyErrors(isEmail, keys[1], fields) == [b]
    requires UnknownErrors(keys, fields) == []
    ensures Errors(isEmail, keys, JObj(fields)) == [a, b]
  {
    TwoKeys(isEmail, keys, fields);
    assert [a] + [b] + [] == [a, b];
  }

  /** Three body members of which only the last is undeclared. */
  lemma LastUnknown(keys: ObjectSchema, fields: seq<(string, Json)>)
    requires |fields| == 3 && Declared(keys, fields[0].0) && Declared(keys, fields[1].0)
    requires !Declared(keys, fields[2].0)
    ensures UnknownErrors(keys, fields) == [Quote(fields[2].0) + " is not allowed"]
  {
    var last := fields[1..][1..];
    assert last[1..] == [] && last[0] == fields[2];
    assert UnknownErrors(keys, last) == [Quote(fields[2].0) + " is not allowed"] + [];
  }

  /** An object holding exactly the two declared keys, in order, is accepted
      exactly when each key accepts its member. */
  lemma TwoKeysAccept(isEmail: string -> bool, keys: ObjectSchema, fields: seq<(string, Json)>)
    requires |keys| == 2 && |fields| == 2
    requires fields[0].0 == keys[0].name && fields[1].0 == keys[1].name
    ensures ObjectAccepts(isEmail, keys, JObj(fields))
        <==> KeyAccepts(isEmail, keys[0], fields) && KeyAccepts(isEmail, keys[1], fields)
  {
    assert Declared(keys, fields[0].0) && Declared(keys, fields[1].0);
  }

  /** An empty array against a minimum item count of at least one: the one
      message is the `array.min` one. */
  lemma EmptyArrayTooShort(isEmail: string -> bool, s: Schema, path: string)
    requires s.kind.ArrayKind? && s.kind.minItems.Some? && s.kind.minItems.value > 0
    requires "array.min" !in s.messages
    ensures ValueErrors(isEmail, s, JArr([]), path)
         == [Quote(path) + " must contain at least " + Decimal(s.kind.minItems.value) + " items"]
  {
    assert ItemErrors(isEmail, s.kind.items, [], path, 0) == [];
    assert Quote(path) + (" must contain at least " + Decimal(s.kind.minItems.value) + " items")
        == Quote(path) + " must contain at least " + Decimal(s.kind.minItems.value) + " items";
  }

  /** An object holding only the first of two keys is accepted exactly when
      that member is valid, provided the second key is optional. */
  lemma FirstOfTwoAccepts(isEmail: string -> bool, keys: ObjectSchema, v: Json)
    requires |keys| == 2 && keys[0].name != keys[1].name && !keys[1].required
    ensures ObjectAccepts(isEmail, keys, JObj([(keys[0].name, v)])) <==> Accepts(isEmail, keys[0].schema, v)
  {
    var fields := [(keys[0].name, v)];
    FieldAt(fields, keys[0].name, 0);
    assert Field(fields, keys[1].name).None?;
    assert Declared(keys, fields[0].0);
  }

  /** The empty object is accepted when no key is required. */
  lemma NoneRequired(isEmail: string -> bool, keys: ObjectSchema)
    requires forall i :: 0 <= i < |keys| ==> !keys[i].required
    ensures ObjectAccepts(isEmail, keys, JObj([]))
  {
    assert forall i :: 0 <= i < |keys| ==> Field([], keys[i].name).None?;
  }

  /** The same for a schema of one key. */
  lemma OneKey(isEmail: string -> bool, keys: ObjectSchema, fields: seq<(string, Json)>)
    requires |keys| == 1
    ensures Errors(isEmail, keys, JObj(fields))
         == KeyErrors(isEmail, keys[0], fields) + UnknownErrors(keys, fields)
  {
    assert keys == [keys[0]];
    DeclaredSingle(isEmail, keys[0], fields);
  }

  lemma DeclaredSingle(isEmail: string -> bool, k: Key, fields: seq<(string, Json)>)
    ensures DeclaredErrors(isEmail, [k], fields) == KeyErrors(isEmail, k, fields)
  {
    assert [k][1..] == [];
    assert KeyErrors(isEmail, k, fields) + [] == KeyErrors(isEmail, k, fields);
  }

  /** A present, non-empty string member is checked against its rules only. */
  lemma StringMember(isEmail: string -> bool, k: Key, fields: seq<(string, Json)>, x: string)
    requires k.schema.kind.StringKind? && Field(fields, k.name) == Some(JStr(x)) && x != ""
    ensures KeyErrors(isEmail, k, fields) == RuleErrors(isEmail, k.schema, k.schema.kind.rules, x, k.name)
  {
  }

  /** A single rule reports its message exactly when it fails. */
  lemma OneRule(isEmail: string -> bool, s: Schema, rule: StringRule, x: string, path: string)
    ensures RuleErrors(isEmail, s, [rule], x, path)
         == if RulePasses(isEmail, rule, x) then [] else [RuleMessage(s, rule, path)]
  {
    assert [rule][1..] == [];
  }

  const ValidationFailed := "Validation failed."

  /** `validate(schema)(req, res, next)`: an accepted body is passed on with
      one `next()` and nothing sent; any other gets one 400 carrying every
      violation, and `next` is not called. The converted value Joi computes
      (defaults, `"true"` turned into `true`) is discarded: the handler sees
      the body as it was sent. */
  function Validate(isEmail: string -> bool, keys: ObjectSchema, body: Json): (effects: seq<Effect>)
    ensures |effects| == 1 && CountNext(effects) + CountSend(effects) == 1
    ensures effects == [Next] <==> ObjectAccepts(isEmail, keys, body)
    ensures effects[0].Send? ==>
      && effects[0].status == 400 && effects[0].message == ValidationFailed
      && effects[0].errors == Errors(isEmail, keys, body) && |effects[0].errors| > 0
  {
    var errs := Errors(isEmail, keys, body);
    if errs == [] then [Next] else [Send(400, ValidationFailed, errs)]
  }

  /** A body with violations is answered with all of them. */
  lemma ValidateRefuses(isEmail: string -> bool, keys: ObjectSchema, body: Json)
    requires Errors(isEmail, keys, body) != []
    ensures Validate(isEmail, keys, body) == [Send(400, ValidationFailed, Errors(isEmail, keys, body))]
  {
  }

  /** Joi's converted value of an accepted body: booleans and numbers
      converted, and every absent key with a default filled in after the
      members sent. This is what `validate` does NOT forward. */
  function Converted(keys: ObjectSchema, body: Json): (r: Json)
    requires body.JObj?
    ensures r.JObj? && |r.fields| >= |body.fields|
    ensures forall j :: 0 <= j < |body.fields| ==> r.fields[j].0 == body.fields[j].0
  {
    JObj(ConvertFields(keys, body.fields) + Defaults(keys, body.fields))
  }

  function ConvertValue(s: Schema, v: Json): Json {
    match s.kind
    case BooleanKind => if BooleanOf(v).Some? then JBool(BooleanOf(v).value) else v
    case NumberKind(_, _, _) => if NumberOf(v).Some? then JNum(NumberOf(v).value) else v
    case _ => v
  }

  function ConvertFields(keys: ObjectSchema, fields: seq<(string, Json)>): (r: seq<(string, Json)>)
    ensures |r| == |fields| && forall j :: 0 <= j < |r| ==> r[j].0 == fields[j].0
  {
    if |fields| == 0 then []
    else
      var f := fields[0];
      var v := match FirstIndex(keys, (k: Key) => k.name == f.0)
               case None => f.1
               case Some(i) => ConvertValue(keys[i].schema, f.1);
      [(f.0, v)] + ConvertFields(keys, fields[1..])
  }

  function Defaults(keys: ObjectSchema, fields: seq<(string, Json)>): (r: seq<(string, Json)>)
    ensures forall j :: 0 <= j < |r| ==> Field(fields, r[j].0).None?
  {
    if |keys| == 0 then []
    else
      (if keys[0].default.Some? && Field(fields, keys[0].name).None?
       then [(keys[0].name, keys[0].default.value)] else [])
      + Defaults(keys[1..], fields)
  }
}
