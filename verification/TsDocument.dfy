// The whole generated file (scripts/generate_frontend_api_types.py:52-65).
module TsDocument {
  // Each component of the schema is declared as a type or as an interface. The
  // printed file reads back as these declarations, and whatever the components
  // allow, their declarations allow.

  import opened Wrappers
  import opened PyText
  import opened TsTypes
  import opened TsLaws
  import opened TsMeaning
  import opened TsLimits

  // A component of the document, in the order of the names. `listed`: it has a
  // key "properties", possibly with nothing in it.
  datatype Component = Component(name: string, schema: Schema, listed: bool, required: set<string>)

  const HEADER := "// Generated by scripts/generate_frontend_api_types.py from the backend OpenAPI schema. Do not edit.\n"

  // ----- The printer -----

  function AliasLine(name: string, schema: Schema): string {
    "export type " + name + " = " + TsType(schema) + ";"
  }

  function OpenLine(name: string): string {
    "export interface " + name + " {"
  }

  function Mark(optional: bool): string {
    if optional then "?" else ""
  }

  function FieldLine(property: (string, Schema), required: set<string>): string {
    "  " + property.0 + Mark(property.0 !in required) + ": " + TsType(property.1) + ";"
  }

  function FieldLines(properties: seq<(string, Schema)>, required: set<string>): seq<string> {
    if properties == [] then [] else [FieldLine(properties[0], required)] + FieldLines(properties[1..], required)
  }

  function ComponentLines(c: Component): seq<string> {
    if c.listed then ["", OpenLine(c.name)] + FieldLines(c.schema.properties, c.required) + ["}"]
    else ["", AliasLine(c.name, c.schema)]
  }

  function DocumentLines(doc: seq<Component>): seq<string> {
    if doc == [] then [] else ComponentLines(doc[0]) + DocumentLines(doc[1..])
  }

  function Render(doc: seq<Component>): string {
    Join([HEADER] + DocumentLines(doc), "\n") + "\n"
  }

  // ----- TypeScript declarations -----

  datatype Field = Field(name: string, optional: bool, ty: Ty)

  datatype Declaration =
    | TypeAlias(name: string, ty: Ty)
    | Interface(name: string, fields: seq<Field>)

  function ReadName(s: string): (p: Parsed<string>)
    ensures p.Ok? ==> |p.rest| < |s|
  {
    if s != [] && IsLetter(s[0]) then Ok(s[..NameLength(s)], s[NameLength(s)..]) else Fail
  }

  // Type ";\n"
  function ReadTyped(s: string): (p: Parsed<Ty>)
    ensures p.Ok? ==> |p.rest| < |s|
  {
    var alts := ParseAlts(s);
    if alts.Ok? && StartsWith(alts.rest, ";\n") then Ok(Combined(alts.result), alts.rest[2..]) else Fail
  }

  // "?"? ": " Type ";\n"
  function ReadColon(name: string, s: string): (p: Parsed<Field>)
    ensures p.Ok? ==> |p.rest| < |s|
  {
    var optional := StartsWith(s, "?");
    var rest := if optional then s[1..] else s;
    if !StartsWith(rest, ": ") then Fail
    else
      var ty := ReadTyped(rest[2..]);
      if ty.Fail? then Fail else Ok(Field(name, optional, ty.result), ty.rest)
  }

  // "  " Name Colon
  function ReadField(s: string): (p: Parsed<Field>)
    ensures p.Ok? ==> |p.rest| < |s|
  {
    if !StartsWith(s, "  ") then Fail
    else
      var name := ReadName(s[2..]);
      if name.Fail? then Fail else ReadColon(name.result, name.rest)
  }

  // Field* "}\n"
  function ReadFields(s: string): (p: Parsed<seq<Field>>)
    ensures p.Ok? ==> |p.rest| < |s|
    decreases |s|
  {
    if StartsWith(s, "}\n") then Ok([], s[2..])
    else
      var field := ReadField(s);
      if field.Fail? then Fail
      else
        var more := ReadFields(field.rest);
        if more.Fail? then Fail else Ok([field.result] + more.result, more.rest)
  }

  // "\nexport type " Name " = " Type ";\n"  |  "\nexport interface " Name " {\n" Fields
  // The names that types are built from cannot be declared again.
  function ReadDeclaration(s: string): (p: Parsed<Declaration>)
    ensures p.Ok? ==> |p.rest| < |s|
  {
    if StartsWith(s, "\nexport type ") then
      var name := ReadName(s[13..]);
      if name.Fail? || Builtin(name.result) || !StartsWith(name.rest, " = ") then Fail
      else
        var ty := ReadTyped(name.rest[3..]);
        if ty.Fail? then Fail else Ok(TypeAlias(name.result, ty.result), ty.rest)
    else if StartsWith(s, "\nexport interface ") then
      var name := ReadName(s[18..]);
      if name.Fail? || Builtin(name.result) || !StartsWith(name.rest, " {\n") then Fail
      else
        var fields := ReadFields(name.rest[3..]);
        if fields.Fail? then Fail else Ok(Interface(name.result, fields.result), fields.rest)
    else Fail
  }

  function ReadDeclarations(s: string): Option<seq<Declaration>>
    decreases |s|
  {
    if s == [] then Some([])
    else
      var first := ReadDeclaration(s);
      if first.Fail? then None
      else
        var more := ReadDeclarations(first.rest);
        if more.None? then None else Some([first.result] + more.value)
  }

  function ReadDocument(s: string): Option<seq<Declaration>> {
    var head := HEADER + "\n";
    if StartsWith(s, head) then ReadDeclarations(s[|head|..]) else None
  }

  // ----- What both sides mean -----

  predicate Has(fields: seq<(string, Value)>, key: string) {
    exists j: nat :: j < |fields| && fields[j].0 == key
  }

  ghost predicate ValidComponent(names: Names, c: Component, v: Value) {
    Valid(names, c.schema, v) && (v.VObj? ==> forall key :: key in c.required ==> Has(v.fields, key))
  }

  ghost predicate MeetsField(names: Names, field: Field, fields: seq<(string, Value)>) {
    && (field.optional || Has(fields, field.name))
    && forall j: nat :: j < |fields| && fields[j].0 == field.name ==> Inhabits(names, field.ty, fields[j].1)
  }

  ghost predicate Meets(names: Names, declaration: Declaration, v: Value) {
    match declaration
    case TypeAlias(_, ty) => Inhabits(names, ty, v)
    case Interface(_, fields) => v.VObj? && forall i: nat :: i < |fields| ==> MeetsField(names, fields[i], v.fields)
  }

  // ----- The declarations that the file is meant to hold -----

  function FieldsOf(properties: seq<(string, Schema)>, required: set<string>): (r: seq<Field>)
    ensures |r| == |properties|
    ensures forall i :: 0 <= i < |r| ==>
              r[i] == Field(properties[i].0, properties[i].0 !in required, Combined(Alts(properties[i].1)))
  {
    if properties == [] then []
    else [Field(properties[0].0, properties[0].0 !in required, Combined(Alts(properties[0].1)))] + FieldsOf(properties[1..], required)
  }

  function DeclarationOf(c: Component): Declaration {
    if c.listed then Interface(c.name, FieldsOf(c.schema.properties, c.required))
    else TypeAlias(c.name, Combined(Alts(c.schema)))
  }

  function DeclarationsOf(doc: seq<Component>): (r: seq<Declaration>)
    ensures |r| == |doc|
    ensures forall i :: 0 <= i < |r| ==> r[i] == DeclarationOf(doc[i])
  {
    if doc == [] then [] else [DeclarationOf(doc[0])] + DeclarationsOf(doc[1..])
  }

  // Names are identifiers.
  predicate Named(c: Component) {
    PlainName(c.name) &&
    (c.listed ==> forall i :: 0 <= i < |c.schema.properties| ==> Identifier(c.schema.properties[i].0))
  }

  // What is printed of a schema can be printed.
  predicate PrintableComponent(c: Component) {
    if c.listed then forall i :: 0 <= i < |c.schema.properties| ==> Printable(c.schema.properties[i].1)
    else c.schema.properties == [] && Printable(c.schema)
  }

  predicate Declarable(c: Component) {
    Named(c) && PrintableComponent(c)
  }

  predicate DeclarableField(property: (string, Schema)) {
    Identifier(property.0) && Printable(property.1)
  }

  // ----- The file reads back -----

  // Every line with its line end.
  function Ended(lines: seq<string>): string {
    if lines == [] then [] else lines[0] + "\n" + Ended(lines[1..])
  }

  lemma {:induction false} JoinIsEnded(lines: seq<string>)
    requires lines != []
    ensures Join(lines, "\n") + "\n" == Ended(lines)
  {
    if |lines| == 1 {
      assert Ended(lines[1..]) == [];
    } else {
      JoinIsEnded(lines[1..]);
      assert (lines[0] + "\n" + Join(lines[1..], "\n")) + "\n" == lines[0] + "\n" + (Join(lines[1..], "\n") + "\n");
    }
  }

  lemma {:induction false} EndedConcat(a: seq<string>, b: seq<string>)
    ensures Ended(a + b) == Ended(a) + Ended(b)
  {
    if a == [] {
      assert a + b == b;
    } else {
      assert (a + b)[1..] == a[1..] + b;
      EndedConcat(a[1..], b);
      assert a[0] + "\n" + (Ended(a[1..]) + Ended(b)) == (a[0] + "\n" + Ended(a[1..])) + Ended(b);
    }
  }

  lemma Taken(token: string, rest: string)
    ensures StartsWith(token + rest, token) && (token + rest)[|token|..] == rest
  {
  }

  lemma NameTaken(name: string, tail: string)
    requires Identifier(name)
    requires tail != [] && !IsNamePart(tail[0])
    ensures ReadName(name + tail) == Ok(name, tail)
  {
    NameStops(name, tail);
    Cut(name, tail);
    assert (name + tail)[0] == name[0];
  }

  lemma {:induction false} NameStops(name: string, tail: string)
    requires forall c :: c in name ==> IsNamePart(c)
    requires tail != [] && !IsNamePart(tail[0])
    ensures NameLength(name + tail) == |name|
  {
    if name == [] {
      assert name + tail == tail;
    } else {
      assert (name + tail)[1..] == name[1..] + tail;
      NameStops(name[1..], tail);
    }
  }

  lemma TypedReadsBack(schema: Schema, tail: string)
    requires Printable(schema)
    ensures ReadTyped(TsType(schema) + (";\n" + tail)) == Ok(Combined(Alts(schema)), tail)
  {
    var end := ";\n" + tail;
    Taken(";\n", tail);
    assert end[0] == ';';
    TypeReadsBack(schema, end);
    assert Continue(Alts(schema), end) == Ok(Alts(schema), end);
  }

  lemma ColonReadsBack(name: string, optional: bool, schema: Schema, tail: string)
    requires Printable(schema)
    ensures ReadColon(name, Mark(optional) + (": " + (TsType(schema) + (";\n" + tail))))
         == Ok(Field(name, optional, Combined(Alts(schema))), tail)
  {
    var after := TsType(schema) + (";\n" + tail);
    TypedReadsBack(schema, tail);
    Taken(": ", after);
    if optional {
      Taken("?", ": " + after);
    } else {
      assert Mark(optional) + (": " + after) == ": " + after;
      assert (": " + after)[0] == ':';
    }
  }

  lemma Nest(a: string, b: string, c: string, d: string, e: string, tail: string)
    ensures (a + b + c + d + e + ";") + "\n" + tail == a + (b + (c + (d + (e + (";\n" + tail)))))
  {
    assert ";" + "\n" == ";\n";
  }

  lemma FieldReadsBack(property: (string, Schema), required: set<string>, tail: string)
    requires DeclarableField(property)
    ensures ReadField(FieldLine(property, required) + "\n" + tail)
         == Ok(Field(property.0, property.0 !in required, Combined(Alts(property.1))), tail)
  {
    var optional := property.0 !in required;
    var colon := Mark(optional) + (": " + (TsType(property.1) + (";\n" + tail)));
    Nest("  ", property.0, Mark(optional), ": ", TsType(property.1), tail);
    Taken("  ", property.0 + colon);
    assert colon[0] == if optional then '?' else ':';
    NameTaken(property.0, colon);
    ColonReadsBack(property.0, optional, property.1, tail);
  }

  lemma EndedCons(line: string, lines: seq<string>, tail: string)
    ensures Ended([line] + lines) + tail == line + "\n" + (Ended(lines) + tail)
  {
    assert ([line] + lines)[1..] == lines;
  }

  // A line that does not close the interface is a field.
  lemma ReadFieldsStep(s: string, field: Field, rest: string)
    requires s != [] && s[0] == ' ' && ReadField(s) == Ok(field, rest)
    requires ReadFields(rest).Ok?
    ensures var more := ReadFields(rest);
            ReadFields(s) == Ok([field] + more.result, more.rest)
  {
    assert !StartsWith(s, "}\n");
  }

  lemma {:induction false} FieldsReadBack(properties: seq<(string, Schema)>, required: set<string>, tail: string)
    requires forall i :: 0 <= i < |properties| ==> DeclarableField(properties[i])
    ensures ReadFields(Ended(FieldLines(properties, required)) + ("}\n" + tail)) == Ok(FieldsOf(properties, required), tail)
  {
    var close := "}\n" + tail;
    if properties == [] {
      assert Ended(FieldLines(properties, required)) + close == close;
      Taken("}\n", tail);
    } else {
      var more := Ended(FieldLines(properties[1..], required)) + close;
      var line := FieldLine(properties[0], required);
      FieldReadsBack(properties[0], required, more);
      FieldsReadBack(properties[1..], required, tail);
      EndedCons(line, FieldLines(properties[1..], required), close);
      assert line[0] == ' ';
      ReadFieldsStep(line + "\n" + more, FieldsOf(properties, required)[0], more);
    }
  }

  lemma AliasReadsBack(c: Component, tail: string)
    requires Declarable(c) && !c.listed
    ensures ReadDeclaration(Ended(ComponentLines(c)) + tail) == Ok(DeclarationOf(c), tail)
  {
    var after := TsType(c.schema) + (";\n" + tail);
    var line := AliasLine(c.name, c.schema);
    assert Ended(ComponentLines(c)) == "\n" + (line + "\n") by {
      assert ComponentLines(c)[1..] == [line];
      assert Ended([line]) == line + "\n";
    }
    NestAlias(c.name, TsType(c.schema), tail);
    TypedReadsBack(c.schema, tail);
    AliasTaken(c.name, after);
  }

  lemma AliasTaken(name: string, after: string)
    requires PlainName(name) && ReadTyped(after).Ok?
    ensures var ty := ReadTyped(after);
            ReadDeclaration("\nexport type " + (name + (" = " + after))) == Ok(TypeAlias(name, ty.result), ty.rest)
  {
    Taken("\nexport type ", name + (" = " + after));
    NameTaken(name, " = " + after);
    Taken(" = ", after);
  }

  lemma NestAlias(name: string, text: string, tail: string)
    ensures "\n" + (("export type " + name + " = " + text + ";") + "\n") + tail
         == "\nexport type " + (name + (" = " + (text + (";\n" + tail))))
  {
    assert "\n" + "export type " == "\nexport type ";
    assert ";" + "\n" == ";\n";
  }

  lemma NestInterface(name: string, body: string, tail: string)
    ensures "\n" + (("export interface " + name + " {") + "\n") + body + "}\n" + tail
         == "\nexport interface " + (name + (" {\n" + (body + ("}\n" + tail))))
  {
    assert "\n" + "export interface " == "\nexport interface ";
    assert " {" + "\n" == " {\n";
  }

  lemma InterfaceLines(c: Component)
    requires c.listed
    ensures Ended(ComponentLines(c))
         == "\n" + (OpenLine(c.name) + "\n") + Ended(FieldLines(c.schema.properties, c.required)) + "}\n"
  {
    var head := ["", OpenLine(c.name)];
    var body := FieldLines(c.schema.properties, c.required);
    EndedConcat(head + body, ["}"]);
    EndedConcat(head, body);
    assert head[1..] == [OpenLine(c.name)];
    assert Ended([OpenLine(c.name)]) == OpenLine(c.name) + "\n";
    assert Ended(["}"]) == "}\n";
  }

  lemma InterfaceReadsBack(c: Component, tail: string)
    requires Declarable(c) && c.listed
    ensures ReadDeclaration(Ended(ComponentLines(c)) + tail) == Ok(DeclarationOf(c), tail)
  {
    var body := Ended(FieldLines(c.schema.properties, c.required));
    var after := body + ("}\n" + tail);
    InterfaceLines(c);
    NestInterface(c.name, body, tail);
    FieldsReadBack(c.schema.properties, c.required, tail);
    InterfaceTaken(c.name, after);
  }

  lemma InterfaceTaken(name: string, after: string)
    requires PlainName(name) && ReadFields(after).Ok?
    ensures var fields := ReadFields(after);
            ReadDeclaration("\nexport interface " + (name + (" {\n" + after))) == Ok(Interface(name, fields.result), fields.rest)
  {
    NotAlias(name + (" {\n" + after));
    Taken("\nexport interface ", name + (" {\n" + after));
    NameTaken(name, " {\n" + after);
    Taken(" {\n", after);
  }

  lemma NotAlias(rest: string)
    ensures !StartsWith("\nexport interface " + rest, "\nexport type ")
  {
    assert ("\nexport interface " + rest)[8] == 'i' && "\nexport type "[8] == 't';
  }

  lemma {:induction false} DeclarationsReadBack(doc: seq<Component>)
    requires forall i :: 0 <= i < |doc| ==> Declarable(doc[i])
    ensures ReadDeclarations(Ended(DocumentLines(doc))) == Some(DeclarationsOf(doc))
  {
    if doc != [] {
      var more := Ended(DocumentLines(doc[1..]));
      EndedConcat(ComponentLines(doc[0]), DocumentLines(doc[1..]));
      if doc[0].listed {
        InterfaceReadsBack(doc[0], more);
      } else {
        AliasReadsBack(doc[0], more);
      }
      DeclarationsReadBack(doc[1..]);
    }
  }

  lemma DocumentReadsBack(doc: seq<Component>)
    requires forall i :: 0 <= i < |doc| ==> Declarable(doc[i])
    ensures ReadDocument(Render(doc)) == Some(DeclarationsOf(doc))
  {
    var lines := [HEADER] + DocumentLines(doc);
    JoinIsEnded(lines);
    assert lines[1..] == DocumentLines(doc);
    Taken(HEADER + "\n", Ended(DocumentLines(doc)));
    DeclarationsReadBack(doc);
  }

  lemma NameIsIdentifier(s: string)
    ensures ReadName(s).Ok? ==> Identifier(ReadName(s).result)
  {
    NamePrefix(s);
  }

  lemma FieldIsNamed(s: string)
    ensures ReadField(s).Ok? ==> Identifier(ReadField(s).result.name)
  {
    if StartsWith(s, "  ") {
      NameIsIdentifier(s[2..]);
    }
  }

  ghost predicate FieldsNamed(fields: seq<Field>) {
    forall i :: 0 <= i < |fields| ==> Identifier(fields[i].name)
  }

  lemma {:induction false} FieldsAreNamed(s: string)
    ensures ReadFields(s).Ok? ==> FieldsNamed(ReadFields(s).result)
    decreases |s|
  {
    var field := ReadField(s);
    if !StartsWith(s, "}\n") && field.Ok? {
      FieldIsNamed(s);
      FieldsAreNamed(field.rest);
    }
  }

  ghost predicate DeclarationNamed(d: Declaration) {
    PlainName(d.name) && (d.Interface? ==> FieldsNamed(d.fields))
  }

  lemma DeclarationIsNamed(s: string)
    ensures ReadDeclaration(s).Ok? ==> DeclarationNamed(ReadDeclaration(s).result)
  {
    if StartsWith(s, "\nexport type ") {
      NameIsIdentifier(s[13..]);
    } else if StartsWith(s, "\nexport interface ") {
      var name := ReadName(s[18..]);
      NameIsIdentifier(s[18..]);
      if name.Ok? && StartsWith(name.rest, " {\n") {
        FieldsAreNamed(name.rest[3..]);
      }
    }
  }

  // Whatever file is read, the names declared in it are identifiers.
  lemma {:induction false} DeclarationsAreNamed(s: string)
    ensures ReadDeclarations(s).Some? ==> forall d :: d in ReadDeclarations(s).value ==> DeclarationNamed(d)
    decreases |s|
  {
    if s != [] {
      var first := ReadDeclaration(s);
      DeclarationIsNamed(s);
      if first.Ok? {
        DeclarationsAreNamed(first.rest);
      }
    }
  }

  lemma NamedIff(c: Component)
    ensures DeclarationNamed(DeclarationOf(c)) <==> Named(c)
  {
    if c.listed {
      var fields := FieldsOf(c.schema.properties, c.required);
      assert forall i :: 0 <= i < |fields| ==> fields[i].name == c.schema.properties[i].0;
    }
  }

  // The names of components and properties are printed as they are.
  lemma DocumentReadsBackIff(doc: seq<Component>)
    requires forall i :: 0 <= i < |doc| ==> PrintableComponent(doc[i])
    ensures ReadDocument(Render(doc)) == Some(DeclarationsOf(doc)) <==> forall i :: 0 <= i < |doc| ==> Named(doc[i])
  {
    if forall i :: 0 <= i < |doc| ==> Named(doc[i]) {
      DocumentReadsBack(doc);
    } else if ReadDocument(Render(doc)) == Some(DeclarationsOf(doc)) {
      DeclarationsAreNamed(Render(doc)[|HEADER + "\n"|..]);
      forall i | 0 <= i < |doc| ensures Named(doc[i]) {
        assert DeclarationsOf(doc)[i] == DeclarationOf(doc[i]);
        NamedIff(doc[i]);
      }
    }
  }

  // ----- The file means what the document means -----

  predicate FaithfulComponent(c: Component) {
    if c.listed
    then c.schema.kind == Some("object") && forall i :: 0 <= i < |c.schema.properties| ==> Faithful(c.schema.properties[i].1)
    else Faithful(c.schema)
  }

  lemma FieldIsMet(names: Names, c: Component, i: nat, v: Value)
    requires Declarable(c) && c.listed && i < |c.schema.properties|
    requires Faithful(c.schema.properties[i].1)
    requires v.VObj? && ValidComponent(names, c, v)
    ensures MeetsField(names, FieldsOf(c.schema.properties, c.required)[i], v.fields)
  {
    var (key, schema) := c.schema.properties[i];
    assert DeclarableField(c.schema.properties[i]);
    RoundTrip(schema);
    forall j: nat | j < |v.fields| && v.fields[j].0 == key ensures Inhabits(names, Combined(Alts(schema)), v.fields[j].1) {
      assert ValidField(names, c.schema, v.fields[j]);
      Sound(names, schema, v.fields[j].1);
      CombinedAdmits(names, Alts(schema), v.fields[j].1);
    }
  }

  lemma ObjectIsSound(names: Names, c: Component, v: Value)
    requires Declarable(c) && c.listed && forall i :: 0 <= i < |c.schema.properties| ==> Faithful(c.schema.properties[i].1)
    requires v.VObj? && ValidComponent(names, c, v)
    ensures Meets(names, DeclarationOf(c), v)
  {
    forall i: nat | i < |c.schema.properties|
      ensures MeetsField(names, FieldsOf(c.schema.properties, c.required)[i], v.fields)
    {
      FieldIsMet(names, c, i, v);
    }
  }

  lemma ComponentIsSound(names: Names, c: Component, v: Value)
    requires Declarable(c) && FaithfulComponent(c) && ValidComponent(names, c, v)
    ensures Meets(names, DeclarationOf(c), v)
  {
    if c.listed {
      ObjectIsSound(names, c, v);
    } else {
      RoundTrip(c.schema);
      Sound(names, c.schema, v);
      CombinedAdmits(names, Alts(c.schema), v);
    }
  }

  // The names stand for values that their components allow.
  ghost predicate Respects(names: Names, doc: seq<Component>) {
    forall i: nat, v :: i < |doc| && names(doc[i].name, v) ==> ValidComponent(names, doc[i], v)
  }

  // The names stand for values that their declarations allow.
  ghost predicate Models(names: Names, declarations: seq<Declaration>) {
    forall i: nat, v :: i < |declarations| && names(declarations[i].name, v) ==> Meets(names, declarations[i], v)
  }

  // However the components refer to each other.
  lemma DocumentIsSound(names: Names, doc: seq<Component>)
    requires forall i :: 0 <= i < |doc| ==> Declarable(doc[i]) && FaithfulComponent(doc[i])
    requires Respects(names, doc)
    ensures ReadDocument(Render(doc)).Some? && Models(names, ReadDocument(Render(doc)).value)
  {
    DocumentReadsBack(doc);
    forall i: nat, v | i < |doc| && names(doc[i].name, v) ensures Meets(names, DeclarationOf(doc[i]), v) {
      ComponentIsSound(names, doc[i], v);
    }
  }

  ghost predicate InterfaceSound(names: Names, c: Component) {
    forall v :: ValidComponent(names, c, v) ==> Meets(names, DeclarationOf(c), v)
  }

  // An interface is sound exactly for a component that allows nothing but objects.
  lemma ObjectsOnlyIff(names: Names, c: Component)
    requires Declarable(c) && c.listed && forall i :: 0 <= i < |c.schema.properties| ==> Faithful(c.schema.properties[i].1)
    ensures InterfaceSound(names, c) <==> forall v :: ValidComponent(names, c, v) ==> v.VObj?
  {
    if forall v :: ValidComponent(names, c, v) ==> v.VObj? {
      forall v | ValidComponent(names, c, v) ensures Meets(names, DeclarationOf(c), v) {
        ObjectIsSound(names, c, v);
      }
    }
  }

  // A value that is no object, of the kind if there is one.
  function NoObject(kind: Option<string>): (v: Value)
    ensures !v.VObj? && (kind.Some? && kind.value != "object" ==> HasKind(kind.value, v))
  {
    match kind
    case Some("string") => VStr("")
    case Some("integer") => VNum("0")
    case Some("number") => VNum("0")
    case Some("boolean") => VBool(true)
    case Some("array") => VArr([])
    case _ => VNull
  }

  // Unless a reference, anyOf, enum or const stands beside the properties, that
  // means "type": "object".
  lemma InterfaceIsSoundIff(names: Names, c: Component)
    requires Declarable(c) && c.listed && forall i :: 0 <= i < |c.schema.properties| ==> Faithful(c.schema.properties[i].1)
    requires c.schema.ref.None? && c.schema.anyOf.Absent? && c.schema.enum.None? && c.schema.value.None?
    ensures InterfaceSound(names, c) <==> c.schema.kind == Some("object")
  {
    ObjectsOnlyIff(names, c);
    if c.schema.kind != Some("object") {
      assert ValidComponent(names, c, NoObject(c.schema.kind));
    }
  }

  // ----- Components that say no more than their declarations -----

  predicate ExactComponent(c: Component) {
    if c.listed then
      && c.schema == BLANK.(kind := Some("object"), properties := c.schema.properties)
      && (forall i :: 0 <= i < |c.schema.properties| ==> Exact(c.schema.properties[i].1))
      && forall key :: key in c.required ==> Listed(c.schema.properties, key)
    else Exact(c.schema) && c.required == {}
  }

  // The component with every integer read as a number.
  function WidenedComponent(c: Component): Component {
    c.(schema := Widened(c.schema))
  }

  lemma PropertyIsMet(names: Names, c: Component, i: nat, v: Value, j: nat)
    requires Declarable(c) && c.listed && ExactComponent(c) && i < |c.schema.properties|
    requires Meets(names, DeclarationOf(c), v) && j < |v.fields| && v.fields[j].0 == c.schema.properties[i].0
    ensures Valid(names, Widened(c.schema.properties[i].1), v.fields[j].1)
  {
    var schema := c.schema.properties[i].1;
    assert DeclarableField(c.schema.properties[i]);
    assert MeetsField(names, FieldsOf(c.schema.properties, c.required)[i], v.fields);
    RoundTrip(schema);
    CombinedAdmits(names, Alts(schema), v.fields[j].1);
    Complete(names, schema, v.fields[j].1);
  }

  lemma KeyIsPresent(names: Names, c: Component, key: string, v: Value)
    requires Declarable(c) && c.listed && ExactComponent(c) && key in c.required
    requires Meets(names, DeclarationOf(c), v)
    ensures Has(v.fields, key)
  {
    var i :| 0 <= i < |c.schema.properties| && c.schema.properties[i].0 == key;
    assert MeetsField(names, FieldsOf(c.schema.properties, c.required)[i], v.fields);
  }

  lemma InterfaceIsComplete(names: Names, c: Component, v: Value)
    requires Declarable(c) && c.listed && ExactComponent(c) && Meets(names, DeclarationOf(c), v)
    ensures ValidComponent(names, WidenedComponent(c), v)
  {
    var wide := Widened(c.schema);
    forall j | 0 <= j < |v.fields| ensures ValidField(names, wide, v.fields[j]) {
      forall i | 0 <= i < |wide.properties| && wide.properties[i].0 == v.fields[j].0
        ensures Valid(names, wide.properties[i].1, v.fields[j].1)
      {
        PropertyIsMet(names, c, i, v, j);
      }
    }
    forall key | key in c.required ensures Has(v.fields, key) {
      KeyIsPresent(names, c, key, v);
    }
  }

  lemma ComponentIsComplete(names: Names, c: Component, v: Value)
    requires Declarable(c) && ExactComponent(c) && Meets(names, DeclarationOf(c), v)
    ensures ValidComponent(names, WidenedComponent(c), v)
  {
    if c.listed {
      InterfaceIsComplete(names, c, v);
    } else {
      RoundTrip(c.schema);
      CombinedAdmits(names, Alts(c.schema), v);
      Complete(names, c.schema, v);
    }
  }

  lemma WidenedFieldIsMet(names: Names, c: Component, i: nat, v: Value)
    requires Declarable(c) && c.listed && i < |c.schema.properties|
    requires Faithful(c.schema.properties[i].1)
    requires v.VObj? && ValidComponent(names, WidenedComponent(c), v)
    ensures MeetsField(names, FieldsOf(c.schema.properties, c.required)[i], v.fields)
  {
    var (key, schema) := c.schema.properties[i];
    var wide := Widened(c.schema);
    assert DeclarableField(c.schema.properties[i]);
    RoundTrip(schema);
    forall j: nat | j < |v.fields| && v.fields[j].0 == key ensures Inhabits(names, Combined(Alts(schema)), v.fields[j].1) {
      assert ValidField(names, wide, v.fields[j]);
      assert wide.properties[i] == (key, Widened(schema));
      WidenedIsSound(names, schema, v.fields[j].1);
      CombinedAdmits(names, Alts(schema), v.fields[j].1);
    }
  }

  lemma WidenedComponentIsSound(names: Names, c: Component, v: Value)
    requires Declarable(c) && FaithfulComponent(c) && ValidComponent(names, WidenedComponent(c), v)
    ensures Meets(names, DeclarationOf(c), v)
  {
    if c.listed {
      forall i: nat | i < |c.schema.properties|
        ensures MeetsField(names, FieldsOf(c.schema.properties, c.required)[i], v.fields)
      {
        WidenedFieldIsMet(names, c, i, v);
      }
    } else {
      RoundTrip(c.schema);
      WidenedIsSound(names, c.schema, v);
      CombinedAdmits(names, Alts(c.schema), v);
    }
  }

  function WidenedDocument(doc: seq<Component>): (r: seq<Component>)
    ensures |r| == |doc| && forall i :: 0 <= i < |r| ==> r[i] == WidenedComponent(doc[i])
  {
    seq(|doc|, i requires 0 <= i < |doc| => WidenedComponent(doc[i]))
  }

  lemma ComponentIsExact(names: Names, c: Component, v: Value)
    requires Declarable(c) && ExactComponent(c)
    ensures ValidComponent(names, WidenedComponent(c), v) <==> Meets(names, DeclarationOf(c), v)
  {
    ExactComponentIsFaithful(c);
    if ValidComponent(names, WidenedComponent(c), v) {
      WidenedComponentIsSound(names, c, v);
    }
    if Meets(names, DeclarationOf(c), v) {
      ComponentIsComplete(names, c, v);
    }
  }

  lemma SameModels(names: Names, wide: seq<Component>, declarations: seq<Declaration>)
    requires |wide| == |declarations| && forall i: nat :: i < |wide| ==> wide[i].name == declarations[i].name
    requires forall i: nat, v :: i < |wide| ==> (ValidComponent(names, wide[i], v) <==> Meets(names, declarations[i], v))
    ensures Respects(names, wide) <==> Models(names, declarations)
  {
  }

  // Then the declarations have the same models as the components with every integer
  // read as a number.
  lemma DocumentIsExact(names: Names, doc: seq<Component>)
    requires forall i :: 0 <= i < |doc| ==> Declarable(doc[i]) && ExactComponent(doc[i])
    ensures ReadDocument(Render(doc)).Some?
    ensures Respects(names, WidenedDocument(doc)) <==> Models(names, ReadDocument(Render(doc)).value)
  {
    DocumentReadsBack(doc);
    var wide, declarations := WidenedDocument(doc), DeclarationsOf(doc);
    forall i: nat, v | i < |doc| ensures ValidComponent(names, wide[i], v) <==> Meets(names, declarations[i], v) {
      ComponentIsExact(names, doc[i], v);
    }
    SameModels(names, wide, declarations);
  }

  lemma ExactComponentIsFaithful(c: Component)
    requires ExactComponent(c)
    ensures FaithfulComponent(c)
  {
    if c.listed {
      forall i | 0 <= i < |c.schema.properties| ensures Faithful(c.schema.properties[i].1) {
        ExactIsFaithful(c.schema.properties[i].1);
      }
    } else {
      ExactIsFaithful(c.schema);
    }
  }
}
