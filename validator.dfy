/** The generic rule checker for JSON request bodies: one rule per field
    (type, required, minimum and maximum length), error messages collected
    per field, and the typed lookups handlers use on the decoded map. */
module Validator {
  import opened Common

  /** A value decoded by encoding/json into interface{}: every number becomes a float64. */
  datatype Json =
    | JNull
    | JBool(b: bool)
    | JNumber(n: real)
    | JString(s: string)
    | JArray(items: seq<Json>)
    | JObject(fields: map<string, Json>)

  datatype FieldRule = FieldRule(ruleType: string, required: bool, min: int, max: int)

  type Errors = map<string, seq<string>>

  /** What ValidateJSONMap returns: the data or the errors, never both. */
  datatype Validated = Validated(data: Option<map<string, Json>>, errors: Option<Errors>)

  const INVALID_BODY := "Invalid JSON body"

  /** `len(s)` on a Go string: the number of bytes of its UTF-8 encoding. */
  function Utf8Length(s: string): nat
  {
    if s == [] then 0
    else
      var c := s[|s| - 1] as int;
      Utf8Length(s[..|s| - 1]) + (if c < 0x80 then 1 else if c < 0x800 then 2 else if c < 0x10000 then 3 else 4)
  }

  /** Each character takes one to four bytes, exactly one for ASCII text. */
  lemma {:induction false} Utf8LengthBounds(s: string)
    ensures |s| <= Utf8Length(s) <= 4 * |s|
    ensures (forall i :: 0 <= i < |s| ==> s[i] as int < 0x80) ==> Utf8Length(s) == |s|
  {
    if s != [] {
      Utf8LengthBounds(s[..|s| - 1]);
    }
  }

  /** The field name as messages show it: every '_' replaced by a space. */
  function Display(field: string): (d: string)
    ensures |d| == |field| && forall i :: 0 <= i < |d| ==> d[i] != '_'
  {
    ReplaceChar(field, '_', ' ')
  }

  function RequiredMessage(field: string): string { "The " + Display(field) + " field is required." }
  function BoolMessage(field: string): string { "The " + Display(field) + " field must be true or false." }
  function StringMessage(field: string): string { "The " + Display(field) + " field must be a string." }
  function NumberMessage(field: string): string { "The " + Display(field) + " field must be a number." }
  function EmailMessage(field: string): string { "The " + Display(field) + " field must be a valid email address." }
  function MinMessage(field: string, min: int): string
  {
    "The " + Display(field) + " field must be at least " + IntToString(min) + " characters."
  }
  function MaxMessage(field: string, max: int): string
  {
    "The " + Display(field) + " field must not be greater than " + IntToString(max) + " characters."
  }

  /** The type check of one present, non-null value. */
  function TypeErrors(field: string, rule: FieldRule, value: Json): seq<string>
  {
    match rule.ruleType
    case "bool" => if value.JBool? then [] else [BoolMessage(field)]
    case "boolean" => if value.JBool? then [] else [BoolMessage(field)]
    case "string" =>
      if value.JString? then
        (if rule.min > 0 && Utf8Length(value.s) < rule.min then [MinMessage(field, rule.min)] else [])
        + (if rule.max > 0 && Utf8Length(value.s) > rule.max then [MaxMessage(field, rule.max)] else [])
      else [StringMessage(field)]
    case "numeric" => if value.JNumber? then [] else [NumberMessage(field)]
    case "number" => if value.JNumber? then [] else [NumberMessage(field)]
    case "email" =>
      if value.JString? then
        if !HasChar(value.s, '@') || !HasChar(value.s, '.') then [EmailMessage(field)] else []
      else [StringMessage(field)]
    case _ => []
  }

  /** The messages one field collects. */
  function FieldErrors(field: string, rule: FieldRule, data: map<string, Json>): seq<string>
  {
    var present := field in data && data[field] != JNull;
    if rule.required && !present then [RequiredMessage(field)]
    else if !present then []
    else TypeErrors(field, rule, data[field])
  }

  /** The errors map: a key for every field that collected a message. */
  function ExpectedErrors(fieldRules: map<string, FieldRule>, data: map<string, Json>): (e: Errors)
    ensures forall f :: f in e <==> f in fieldRules && FieldErrors(f, fieldRules[f], data) != []
  {
    map f | f in fieldRules && FieldErrors(f, fieldRules[f], data) != [] :: FieldErrors(f, fieldRules[f], data)
  }

  /** ValidateJSONMap over a body that decoded to an object (`body` is None
      when it did not). The rules are visited in whatever order the map
      yields; the result does not depend on it. */
  method ValidateJSONMap(body: Option<map<string, Json>>, fieldRules: map<string, FieldRule>) returns (r: Validated)
    ensures body.None? ==> r == Validated(None, Some(map["_error" := [INVALID_BODY]]))
    ensures body.Some? && ExpectedErrors(fieldRules, body.value) == map[] ==> r == Validated(body, None)
    ensures body.Some? && ExpectedErrors(fieldRules, body.value) != map[] ==>
              r == Validated(None, Some(ExpectedErrors(fieldRules, body.value)))
    ensures r.data.Some? <==> r.errors.None?
    ensures r.errors.Some? ==> r.errors.value != map[]
  {
    if body.None? {
      var invalid := map["_error" := [INVALID_BODY]];
      assert "_error" in invalid;
      return Validated(None, Some(invalid));
    }
    var data := body.value;
    var errors: Errors := map[];
    var remaining := fieldRules.Keys;
    while remaining != {}
      invariant remaining <= fieldRules.Keys
      invariant forall f :: f in errors <==> f in fieldRules && f !in remaining && FieldErrors(f, fieldRules[f], data) != []
      invariant forall f :: f in errors ==> errors[f] == FieldErrors(f, fieldRules[f], data)
      decreases remaining
    {
      var field :| field in remaining;
      var rule := fieldRules[field];
      var msgs := FieldErrors(field, rule, data);
      if msgs != [] {
        errors := errors[field := msgs];
      }
      remaining := remaining - {field};
    }
    assert errors == ExpectedErrors(fieldRules, data);
    if |errors| > 0 {
      return Validated(None, Some(errors));
    }
    assert errors == map[];
    return Validated(body, None);
  }

  /** A required field that is absent or null gets exactly the required
      message and no type check; an optional one gets nothing. */
  lemma MissingField(field: string, rule: FieldRule, data: map<string, Json>)
    requires field !in data || data[field] == JNull
    ensures rule.required ==> FieldErrors(field, rule, data) == [RequiredMessage(field)]
    ensures !rule.required ==> FieldErrors(field, rule, data) == []
  {
  }

  /** String length bounds are checked on bytes and both can fail at once;
      a value of another type only gets "must be a string". */
  lemma StringRule(field: string, rule: FieldRule, value: Json)
    requires rule.ruleType == "string"
    ensures value.JString? ==>
              ((MinMessage(field, rule.min) in TypeErrors(field, rule, value))
                 <==> (rule.min > 0 && Utf8Length(value.s) < rule.min))
              && ((MaxMessage(field, rule.max) in TypeErrors(field, rule, value))
                 <==> (rule.max > 0 && Utf8Length(value.s) > rule.max))
    ensures !value.JString? ==> TypeErrors(field, rule, value) == [StringMessage(field)]
    ensures value.JString? && rule.min > Utf8Length(value.s) > rule.max > 0 ==>
              TypeErrors(field, rule, value) == [MinMessage(field, rule.min), MaxMessage(field, rule.max)]
  {
    if value.JString? {
      MinMaxMessagesDiffer(field, rule.min, rule.max);
    }
  }

  lemma MinMaxMessagesDiffer(field: string, min: int, max: int)
    ensures MinMessage(field, min) != MaxMessage(field, max)
  {
    var prefix := "The " + Display(field) + " field must ";
    assert MinMessage(field, min)[|prefix|] == 'b';
    assert MaxMessage(field, max)[|prefix|] == 'n';
  }

  /** An email passes exactly when it contains both '@' and '.'. */
  lemma EmailRule(field: string, rule: FieldRule, s: string)
    requires rule.ruleType == "email"
    ensures TypeErrors(field, rule, JString(s)) == [] <==> HasChar(s, '@') && HasChar(s, '.')
  {
  }

  /** `bool` accepts only booleans, `numeric` any number, and a rule type the
      switch does not know accepts everything. */
  lemma OtherRules(field: string, rule: FieldRule, value: Json)
    ensures (rule.ruleType == "bool" || rule.ruleType == "boolean") ==> (TypeErrors(field, rule, value) == [] <==> value.JBool?)
    ensures (rule.ruleType == "numeric" || rule.ruleType == "number") ==> (TypeErrors(field, rule, value) == [] <==> value.JNumber?)
    ensures rule.ruleType !in {"bool", "boolean", "string", "numeric", "number", "email"} ==> TypeErrors(field, rule, value) == []
  {
  }

  /** GetString: the value when the key holds a string. */
  function GetString(data: map<string, Json>, key: string): (r: Option<string>)
    ensures r.Some? <==> key in data && data[key].JString?
    ensures r.Some? ==> r.value == data[key].s
  {
    if key in data && data[key].JString? then Some(data[key].s) else None
  }

  /** GetBool: the value when the key holds a boolean. */
  function GetBool(data: map<string, Json>, key: string): (r: Option<bool>)
    ensures r.Some? <==> key in data && data[key].JBool?
    ensures r.Some? ==> r.value == data[key].b
  {
    if key in data && data[key].JBool? then Some(data[key].b) else None
  }

  /** The two lookups never both answer, neither answers for null, and a
      value stored under a key is read back. */
  lemma LookupsExclusive(data: map<string, Json>, key: string, s: string, b: bool)
    ensures GetString(data, key).None? || GetBool(data, key).None?
    ensures key in data && data[key] == JNull ==> GetString(data, key).None? && GetBool(data, key).None?
    ensures GetString(data[key := JString(s)], key) == Some(s) && GetBool(data[key := JBool(b)], key) == Some(b)
  {
  }
}
