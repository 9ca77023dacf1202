// JSON-Schema to TypeScript types (scripts/generate_frontend_api_types.py:21-49):
// the printer, the TypeScript syntax it prints, and what both sides mean.
module TsTypes {
  import opened Wrappers
  import opened PyText

  // ----- Schemas and JSON values -----

  // A literal as Python prints it: strings are quoted, everything else is
  // str(value). `Word` covers True, False and None.
  datatype Literal = Str(text: string) | Num(text: string) | Word(text: string)

  datatype Schema = Schema(
    ref: Option<string>,
    anyOf: AnyOf,
    enum: Option<seq<Literal>>,
    value: Option<Literal>,              // const
    kind: Option<string>,                // type
    items: Option<Schema>,
    properties: seq<(string, Schema)>,
    additional: Option<Additional>)      // additionalProperties

  datatype AnyOf = Absent | Present(options: seq<Schema>)

  datatype Additional = Any(allowed: bool) | Of(schema: Schema)

  datatype Value =
    | VNull
    | VBool(b: bool)
    | VNum(text: string)
    | VStr(text: string)
    | VArr(elements: seq<Value>)
    | VObj(fields: seq<(string, Value)>)

  // ----- The printer -----

  function LiteralText(lit: Literal): string {
    if lit.Str? then "\"" + lit.text + "\"" else lit.text
  }

  function LiteralTexts(lits: seq<Literal>): seq<string> {
    if lits == [] then [] else [LiteralText(lits[0])] + LiteralTexts(lits[1..])
  }

  // " | ".join(parts)
  function Bars(parts: seq<string>): string {
    if parts == [] then []
    else if |parts| == 1 then parts[0]
    else parts[0] + " | " + Bars(parts[1..])
  }

  // list(dict.fromkeys(parts)): the first occurrence of each string, in order.
  function Distinct(parts: seq<string>, seen: set<string>): seq<string> {
    if parts == [] then []
    else if parts[0] in seen then Distinct(parts[1..], seen)
    else [parts[0]] + Distinct(parts[1..], seen + {parts[0]})
  }

  predicate IsScalar(kind: Option<string>) {
    kind.Some? && kind.value in {"string", "integer", "number", "boolean", "null"}
  }

  function ScalarName(kind: string): string {
    if kind == "integer" then "number" else kind
  }

  function ArrayOf(item: string): string {
    if '|' in item then "(" + item + ")[]" else item + "[]"
  }

  // An empty schema for additional properties prints "unknown", as does none.
  function RecordOf(element: string): string {
    "Record<string, " + element + ">"
  }

  function Printouts(schemas: seq<Schema>): (r: seq<string>)
    ensures |r| == |schemas|
  {
    if schemas == [] then [] else [TsType(schemas[0])] + Printouts(schemas[1..])
  }

  function TsType(schema: Schema): string {
    if schema.ref.Some? then AfterSlash(schema.ref.value)
    else if schema.anyOf.Present? then Bars(Distinct(Printouts(schema.anyOf.options), {}))
    else if schema.enum.Some? then Bars(LiteralTexts(schema.enum.value))
    else if schema.value.Some? then LiteralText(schema.value.value)
    else if IsScalar(schema.kind) then ScalarName(schema.kind.value)
    else if schema.kind == Some("array") then
      ArrayOf(if schema.items.Some? then TsType(schema.items.value) else "unknown")
    else if schema.kind == Some("object") || schema.additional.Some? then
      RecordOf(if schema.additional.Some? && schema.additional.value.Of?
               then TsType(schema.additional.value.schema) else "unknown")
    else "unknown"
  }

  // ----- TypeScript types -----

  datatype Ty =
    | Name(name: string)
    | StrLit(text: string)
    | NumLit(text: string)
    | Arr(element: Ty)
    | Rec(element: Ty)
    | Union(members: seq<Ty>)

  datatype Parsed<T> = Fail | Ok(result: T, rest: string)

  predicate IsLetter(c: char) {
    'a' <= c <= 'z' || 'A' <= c <= 'Z' || c == '_' || c == '$'
  }

  predicate IsNamePart(c: char) {
    IsLetter(c) || IsDigit(c)
  }

  predicate IsNumberPart(c: char) {
    IsDigit(c) || c in ".eE+-"
  }

  function NameLength(s: string): (n: nat)
    ensures n <= |s|
  {
    if s == [] || !IsNamePart(s[0]) then 0 else 1 + NameLength(s[1..])
  }

  function NumberLength(s: string): (n: nat)
    ensures n <= |s|
  {
    if s == [] || !IsNumberPart(s[0]) then 0 else 1 + NumberLength(s[1..])
  }

  // Neither the closing quote, nor the start of an escape, nor the end of the line.
  predicate IsPlain(c: char) {
    c != '"' && c != '\\' && c != '\n' && c != '\r'
  }

  function PlainLength(s: string): (n: nat)
    ensures n <= |s|
  {
    if s == [] || !IsPlain(s[0]) then 0 else 1 + PlainLength(s[1..])
  }

  // A list of alternatives as one type.
  function Combined(alts: seq<Ty>): Ty {
    if |alts| == 1 then alts[0] else Union(alts)
  }

  // Type := Postfix (" | " Postfix)*
  function ParseAlts(s: string): (p: Parsed<seq<Ty>>)
    ensures p.Ok? ==> |p.rest| < |s|
    decreases |s|, 2
  {
    var first := ParsePostfix(s);
    if first.Fail? then Fail
    else if StartsWith(first.rest, " | ") then
      var more := ParseAlts(first.rest[3..]);
      if more.Fail? then Fail else Ok([first.result] + more.result, more.rest)
    else Ok([first.result], first.rest)
  }

  // Postfix := Primary "[]"*   -- arrays bind tighter than unions
  function ParsePostfix(s: string): (p: Parsed<Ty>)
    ensures p.Ok? ==> |p.rest| < |s|
    decreases |s|, 1
  {
    var primary := ParsePrimary(s);
    if primary.Fail? then Fail else Suffixes(primary.result, primary.rest)
  }

  function Suffixes(ty: Ty, s: string): (p: Parsed<Ty>)
    ensures p.Ok? && |p.rest| <= |s|
    decreases |s|
  {
    if StartsWith(s, "[]") then Suffixes(Arr(ty), s[2..]) else Ok(ty, s)
  }

  // Primary := "(" Type ")" | string | number | name | "Record<string, " Type ">"
  function ParsePrimary(s: string): (p: Parsed<Ty>)
    ensures p.Ok? ==> |p.rest| < |s|
    decreases |s|, 0
  {
    if s == [] then Fail
    else if s[0] == '(' then
      var inner := ParseAlts(s[1..]);
      if inner.Ok? && StartsWith(inner.rest, ")") then Ok(Combined(inner.result), inner.rest[1..]) else Fail
    else if s[0] == '"' then
      var n := PlainLength(s[1..]);
      if 1 + n < |s| && s[1 + n] == '"' then Ok(StrLit(s[1..1 + n]), s[n + 2..]) else Fail
    else if IsDigit(s[0]) || s[0] == '-' then Ok(NumLit(s[..NumberLength(s)]), s[NumberLength(s)..])
    else if IsLetter(s[0]) then
      var n := NameLength(s);
      if s[..n] == "Record" && StartsWith(s[n..], "<string, ") then
        var inner := ParseAlts(s[n + 9..]);
        if inner.Ok? && StartsWith(inner.rest, ">") then Ok(Rec(Combined(inner.result)), inner.rest[1..]) else Fail
      else Ok(Name(s[..n]), s[n..])
    else Fail
  }

  function ParseType(s: string): Option<Ty> {
    var p := ParseAlts(s);
    if p.Ok? && p.rest == [] then Some(Combined(p.result)) else None
  }

  // ----- What both sides mean -----

  // The meaning of a named component, the same for schema and type.
  type Names = (string, Value) -> bool

  predicate Builtin(name: string) {
    name in {"string", "number", "boolean", "null", "unknown", "Record"}
  }

  function LiteralValue(lit: Literal): Value {
    match lit
    case Str(text) => VStr(text)
    case Num(text) => VNum(text)
    case Word(text) => if text == "True" then VBool(true) else if text == "False" then VBool(false) else VNull
  }

  predicate IsInteger(text: string) {
    forall c :: c in text ==> IsDigit(c) || c == '-'
  }

  // The keyword `type`. Other names do not restrict.
  predicate HasKind(kind: string, v: Value) {
    match kind
    case "string" => v.VStr?
    case "integer" => v.VNum? && IsInteger(v.text)
    case "number" => v.VNum?
    case "boolean" => v.VBool?
    case "null" => v.VNull?
    case "array" => v.VArr?
    case "object" => v.VObj?
    case _ => true
  }

  predicate Listed(properties: seq<(string, Schema)>, key: string) {
    exists i :: 0 <= i < |properties| && properties[i].0 == key
  }

  // All keywords of a schema apply together.
  ghost predicate Valid(names: Names, schema: Schema, v: Value)
    decreases schema, 1
  {
    && (schema.ref.Some? ==> names(AfterSlash(schema.ref.value), v))
    && (schema.anyOf.Present? ==>
          exists i :: 0 <= i < |schema.anyOf.options| && Valid(names, schema.anyOf.options[i], v))
    && (schema.enum.Some? ==> exists i :: 0 <= i < |schema.enum.value| && LiteralValue(schema.enum.value[i]) == v)
    && (schema.value.Some? ==> LiteralValue(schema.value.value) == v)
    && (schema.kind.Some? ==> HasKind(schema.kind.value, v))
    && (schema.items.Some? && v.VArr? ==>
          forall i :: 0 <= i < |v.elements| ==> Valid(names, schema.items.value, v.elements[i]))
    && (v.VObj? ==> forall j :: 0 <= j < |v.fields| ==> ValidField(names, schema, v.fields[j]))
  }

  // A listed field is valid against each of its entries, any other field
  // against the schema for additional properties.
  ghost predicate ValidField(names: Names, schema: Schema, field: (string, Value))
    decreases schema, 0
  {
    && (forall i :: 0 <= i < |schema.properties| && schema.properties[i].0 == field.0 ==>
          Valid(names, schema.properties[i].1, field.1))
    && (schema.additional.Some? && !Listed(schema.properties, field.0) ==>
          match schema.additional.value
          case Any(allowed) => allowed
          case Of(rest) => Valid(names, rest, field.1))
  }

  ghost predicate Inhabits(names: Names, ty: Ty, v: Value)
    decreases ty
  {
    match ty
    case Name("string") => v.VStr?
    case Name("number") => v.VNum?
    case Name("boolean") => v.VBool?
    case Name("null") => v.VNull?
    case Name("unknown") => true
    case Name(name) => names(name, v)
    case StrLit(text) => v == VStr(text)
    case NumLit(text) => v == VNum(text)
    case Arr(element) => v.VArr? && forall i :: 0 <= i < |v.elements| ==> Inhabits(names, element, v.elements[i])
    case Rec(element) => v.VObj? && forall i :: 0 <= i < |v.fields| ==> Inhabits(names, element, v.fields[i].1)
    case Union(members) => exists i :: 0 <= i < |members| && Inhabits(names, members[i], v)
  }

  // ----- Which schemas the printer handles -----

  predicate PlainLiteral(lit: Literal) {
    match lit
    case Str(text) => forall c :: c in text ==> IsPlain(c)
    case Num(text) => text != [] && (IsDigit(text[0]) || text[0] == '-') && forall c :: c in text ==> IsNumberPart(c)
    case Word(_) => false
  }

  // Python's words print as names.
  predicate Readable(lit: Literal) {
    PlainLiteral(lit) || (lit.Word? && lit.text in {"True", "False", "None"})
  }

  predicate PlainName(name: string) {
    && name != [] && IsLetter(name[0]) && !Builtin(name)
    && forall c :: c in name ==> IsNamePart(c)
  }

  // References are plain names, alternatives are not empty, literals can be read.
  // Only the keywords that TsType looks at matter.
  predicate Printable(schema: Schema)
    decreases schema
  {
    if schema.ref.Some? then PlainName(AfterSlash(schema.ref.value))
    else if schema.anyOf.Present? then
      schema.anyOf.options != [] && forall i :: 0 <= i < |schema.anyOf.options| ==> Printable(schema.anyOf.options[i])
    else if schema.enum.Some? then
      schema.enum.value != [] && forall i :: 0 <= i < |schema.enum.value| ==> Readable(schema.enum.value[i])
    else if schema.value.Some? then Readable(schema.value.value)
    else if IsScalar(schema.kind) then true
    else if schema.kind == Some("array") then schema.items.Some? ==> Printable(schema.items.value)
    else if schema.kind == Some("object") || schema.additional.Some? then
      schema.additional.Some? && schema.additional.value.Of? ==> Printable(schema.additional.value.schema)
    else true
  }

  // Literals are strings and numbers. Where a Record is printed, the schema says
  // "type": "object", and a schema for additional properties has no listed
  // properties beside it.
  predicate Faithful(schema: Schema)
    decreases schema
  {
    if schema.ref.Some? then true
    else if schema.anyOf.Present? then
      forall i :: 0 <= i < |schema.anyOf.options| ==> Faithful(schema.anyOf.options[i])
    else if schema.enum.Some? then forall i :: 0 <= i < |schema.enum.value| ==> !schema.enum.value[i].Word?
    else if schema.value.Some? then !schema.value.value.Word?
    else if IsScalar(schema.kind) then true
    else if schema.kind == Some("array") then schema.items.Some? ==> Faithful(schema.items.value)
    else if schema.kind == Some("object") || schema.additional.Some? then
      && schema.kind == Some("object")
      && (schema.additional.Some? && schema.additional.value.Of? ==>
            schema.properties == [] && Faithful(schema.additional.value.schema))
    else true
  }

  const BLANK := Schema(None, Absent, None, None, None, None, [], None)

  // "integer" read as "number", which is all that a type can say.
  function AnyNumber(kind: Option<string>): Option<string> {
    if kind == Some("integer") then Some("number") else kind
  }

  // The schema with every "integer" in it read as "number".
  function Widened(schema: Schema): Schema
    decreases schema, 1
  {
    Schema(schema.ref,
           if schema.anyOf.Present? then Present(WidenedAll(schema.anyOf.options)) else Absent,
           schema.enum, schema.value, AnyNumber(schema.kind),
           if schema.items.Some? then Some(Widened(schema.items.value)) else None,
           WidenedProperties(schema.properties),
           if schema.additional.Some? && schema.additional.value.Of? then Some(Of(Widened(schema.additional.value.schema)))
           else schema.additional)
  }

  function WidenedAll(schemas: seq<Schema>): (r: seq<Schema>)
    ensures |r| == |schemas|
    ensures forall i :: 0 <= i < |r| ==> r[i] == Widened(schemas[i])
    decreases schemas, 0
  {
    if schemas == [] then [] else [Widened(schemas[0])] + WidenedAll(schemas[1..])
  }

  function WidenedProperty(property: (string, Schema)): (string, Schema)
    decreases property, 0
  {
    (property.0, Widened(property.1))
  }

  function WidenedProperties(properties: seq<(string, Schema)>): (r: seq<(string, Schema)>)
    ensures |r| == |properties|
    ensures forall i :: 0 <= i < |r| ==> r[i] == WidenedProperty(properties[i])
    decreases properties, 0
  {
    if properties == [] then [] else [WidenedProperty(properties[0])] + WidenedProperties(properties[1..])
  }

  // Nothing is said that the type cannot say: no keyword beside the one that is
  // printed, a redundant "type" on a literal aside.
  predicate Exact(schema: Schema)
    decreases schema
  {
    if schema.ref.Some? then schema == BLANK.(ref := schema.ref)
    else if schema.anyOf.Present? then
      && schema == BLANK.(anyOf := schema.anyOf)
      && forall i :: 0 <= i < |schema.anyOf.options| ==> Exact(schema.anyOf.options[i])
    else if schema.enum.Some? then
      && schema == BLANK.(enum := schema.enum, kind := schema.kind)
      && forall i :: 0 <= i < |schema.enum.value| ==>
           !schema.enum.value[i].Word? && Redundant(schema.kind, schema.enum.value[i])
    else if schema.value.Some? then
      && schema == BLANK.(value := schema.value, kind := schema.kind)
      && !schema.value.value.Word? && Redundant(schema.kind, schema.value.value)
    else if IsScalar(schema.kind) then schema == BLANK.(kind := schema.kind)
    else if schema.kind == Some("array") then
      schema == BLANK.(kind := schema.kind, items := schema.items) && (schema.items.Some? ==> Exact(schema.items.value))
    else if schema.kind == Some("object") then
      && schema == BLANK.(kind := schema.kind, additional := schema.additional)
      && (schema.additional.Some? ==>
            match schema.additional.value
            case Any(allowed) => allowed
            case Of(rest) => Exact(rest))
    else schema == BLANK
  }

  predicate Redundant(kind: Option<string>, lit: Literal) {
    kind.Some? ==> HasKind(kind.value, LiteralValue(lit))
  }
}
