// Where the compiled type does not say what the schema says (scripts/generate_frontend_api_types.py:21-49).
module TsLimits {
  import opened Wrappers
  import opened PyText
  import opened TsTypes
  import opened TsLaws
  import opened TsMeaning

  // Every valid value inhabits the type.
  ghost predicate SoundAs(names: Names, schema: Schema, ty: Ty) {
    forall v :: Valid(names, schema, v) ==> Inhabits(names, ty, v)
  }

  ghost predicate SoundFor(names: Names, schema: Schema) {
    ParseType(TsType(schema)).Some? && SoundAs(names, schema, ParseType(TsType(schema)).value)
  }

  // ----- Schemas that print no type -----

  // References are plain names and literals can be read, wherever TsType looks.
  predicate Legible(schema: Schema)
    decreases schema
  {
    if schema.ref.Some? then PlainName(AfterSlash(schema.ref.value))
    else if schema.anyOf.Present? then forall i :: 0 <= i < |schema.anyOf.options| ==> Legible(schema.anyOf.options[i])
    else if schema.enum.Some? then forall i :: 0 <= i < |schema.enum.value| ==> Readable(schema.enum.value[i])
    else if schema.value.Some? then Readable(schema.value.value)
    else if IsScalar(schema.kind) then true
    else if schema.kind == Some("array") then schema.items.Some? ==> Legible(schema.items.value)
    else if schema.kind == Some("object") || schema.additional.Some? then
      schema.additional.Some? && schema.additional.value.Of? ==> Legible(schema.additional.value.schema)
    else true
  }

  // Legible, but with an empty anyOf or an empty enum somewhere.
  predicate Broken(schema: Schema) {
    Legible(schema) && !Printable(schema)
  }

  // An empty text reads as nothing, whatever may follow it.
  lemma EmptyBreaks(tail: string)
    requires Pauses(tail)
    ensures ParsePostfix("" + tail).Fail?
  {
    assert "" + tail == tail;
  }

  lemma {:induction false} DistinctHolds(options: seq<Schema>, seen: set<string>, k: nat)
    requires k < |options| && TsType(options[k]) !in seen
    ensures TsType(options[k]) in Distinct(Printouts(options), seen)
  {
    assert Printouts(options)[1..] == Printouts(options[1..]);
    if k > 0 && TsType(options[k]) != TsType(options[0]) {
      DistinctHolds(options[1..], if TsType(options[0]) in seen then seen else seen + {TsType(options[0])}, k - 1);
    }
  }

  lemma ArrayBreaks(text: string, tail: string)
    requires if '|' in text then ParseAlts(text + (")" + ("[]" + tail))).Fail? else ParsePostfix(text + ("[]" + tail)).Fail?
    ensures ParsePostfix(ArrayOf(text) + tail).Fail?
  {
    if '|' in text {
      var inner := text + (")" + ("[]" + tail));
      Regroup("(", text, ")[]", tail);
      assert ")[]" + tail == ")" + ("[]" + tail);
      assert ("(" + text + ")[]") + tail == "(" + inner;
      Cut("(", inner);
    } else {
      assert (text + "[]") + tail == text + ("[]" + tail);
    }
  }

  lemma RecordBreaks(text: string, tail: string)
    requires ParseAlts(text + (">" + tail)).Fail?
    ensures ParsePostfix(RecordOf(text) + tail).Fail?
  {
    var inner := text + (">" + tail);
    Regroup("Record<string, ", text, ">", tail);
    RecordHead(inner);
    NameEnds("Record", "<string, " + inner);
  }

  // The option that breaks a union of one text prints that text.
  lemma BrokenOption(options: seq<Schema>) returns (k: nat)
    requires forall i :: 0 <= i < |options| ==> Legible(options[i])
    requires exists i: nat :: i < |options| && !Printable(options[i])
    requires '|' !in Bars(Distinct(Printouts(options), {}))
    ensures k < |options| && Broken(options[k]) && TsType(options[k]) == Bars(Distinct(Printouts(options), {}))
  {
    k :| k < |options| && !Printable(options[k]);
    OnlyOption(options);
    DistinctHolds(options, {}, k);
  }

  lemma {:induction false} MemberBreaks(schema: Schema, tail: string)
    requires Broken(schema)
    requires '|' !in TsType(schema) || (schema.ref.None? && schema.anyOf.Absent? && schema.enum.None?)
    requires Pauses(tail)
    ensures ParsePostfix(TsType(schema) + tail).Fail?
    decreases schema, 0
  {
    if schema.anyOf.Present? {
      if schema.anyOf.options == [] {
        EmptyBreaks(tail);
      } else {
        var k := BrokenOption(schema.anyOf.options);
        MemberBreaks(schema.anyOf.options[k], tail);
      }
    } else if schema.enum.Some? {
      EmptyBreaks(tail);
    } else if schema.kind == Some("array") {
      ItemBreaks(schema.items.value, tail);
    } else {
      TypeBreaks(schema.additional.value.schema, ">" + tail);
      RecordBreaks(TsType(schema.additional.value.schema), tail);
    }
  }

  lemma {:induction false} ItemBreaks(item: Schema, tail: string)
    requires Broken(item)
    requires Pauses(tail)
    ensures ParsePostfix(ArrayOf(TsType(item)) + tail).Fail?
    decreases item, 2
  {
    if '|' in TsType(item) {
      TypeBreaks(item, ")" + ("[]" + tail));
    } else {
      MemberBreaks(item, "[]" + tail);
    }
    ArrayBreaks(TsType(item), tail);
  }

  lemma {:induction false} TypeBreaks(schema: Schema, tail: string)
    requires Broken(schema)
    requires Stops(tail)
    ensures ParseAlts(TsType(schema) + tail).Fail?
    decreases schema, 1
  {
    if schema.ref.None? && schema.anyOf.Present? && schema.anyOf.options != [] {
      var k :| 0 <= k < |schema.anyOf.options| && !Printable(schema.anyOf.options[k]);
      OptionsBreak(schema.anyOf.options, {}, k, tail);
    } else {
      MemberBreaks(schema, tail);
    }
  }

  // One broken option breaks the union.
  lemma {:induction false} OptionsBreak(options: seq<Schema>, seen: set<string>, k: nat, tail: string)
    requires forall i :: 0 <= i < |options| ==> Legible(options[i])
    requires k < |options| && !Printable(options[k]) && TsType(options[k]) !in seen
    requires Stops(tail)
    ensures ParseAlts(Bars(Distinct(Printouts(options), seen)) + tail).Fail?
    decreases options, 1
  {
    if TsType(options[0]) in seen {
      assert Printouts(options)[1..] == Printouts(options[1..]);
      OptionsBreak(options[1..], seen, k - 1, tail);
    } else {
      DistinctFirst(options, seen);
      if Printable(options[0]) {
        LaterOptionBreaks(options, seen, k, tail);
      } else {
        FirstOptionBreaks(options[0], Distinct(Printouts(options[1..]), seen + {TsType(options[0])}), tail);
      }
    }
  }

  lemma {:induction false} FirstOptionBreaks(first: Schema, more: seq<string>, tail: string)
    requires Broken(first)
    requires Stops(tail)
    ensures ParseAlts(Bars([TsType(first)] + more) + tail).Fail?
    decreases first, 3
  {
    if more == [] {
      TypeBreaks(first, tail);
      assert [TsType(first)] + more == [TsType(first)];
    } else {
      BarThenRest(TsType(first), more, tail);
      TypeBreaks(first, " | " + (Bars(more) + tail));
    }
  }

  lemma {:induction false} LaterOptionBreaks(options: seq<Schema>, seen: set<string>, k: nat, tail: string)
    requires forall i :: 0 <= i < |options| ==> Legible(options[i])
    requires 0 < k < |options| && !Printable(options[k]) && TsType(options[k]) !in seen
    requires Printable(options[0]) && Stops(tail)
    ensures var more := Distinct(Printouts(options[1..]), seen + {TsType(options[0])});
            ParseAlts(Bars([TsType(options[0])] + more) + tail).Fail?
    decreases options, 0
  {
    var text := TsType(options[0]);
    var more := Distinct(Printouts(options[1..]), seen + {text});
    PrintableDiffers(options[0], options[k]);
    DistinctHolds(options[1..], seen + {text}, k - 1);
    OptionsBreak(options[1..], seen + {text}, k - 1, tail);
    BarThenRest(text, more, tail);
    UnionBreaks(options[0], Bars(more), tail);
  }

  lemma UnionBreaks(first: Schema, rest: string, tail: string)
    requires Printable(first) && ParseAlts(rest + tail).Fail?
    ensures ParseAlts(TsType(first) + (" | " + (rest + tail))).Fail?
  {
    TypeReadsBack(first, " | " + (rest + tail));
    assert (" | " + (rest + tail))[3..] == rest + tail;
  }

  // A broken schema prints no text that a printable one prints.
  lemma {:induction false} PrintableDiffers(a: Schema, b: Schema)
    requires Printable(a) && Broken(b)
    ensures TsType(a) != TsType(b)
    decreases b, 2
  {
    TypeReadsBack(a, "");
    TypeBreaks(b, "");
  }

  // An empty anyOf or enum prints nothing at all, which is no type, and no type
  // that it is part of is one.
  lemma TypeParsesIff(schema: Schema)
    requires Legible(schema)
    ensures ParseType(TsType(schema)).Some? <==> Printable(schema)
  {
    assert TsType(schema) + "" == TsType(schema);
    if Printable(schema) {
      RoundTrip(schema);
    } else {
      TypeBreaks(schema, "");
    }
  }

  // ----- String literals -----

  lemma {:induction false} PlainPrefix(s: string)
    ensures forall c :: c in s[..PlainLength(s)] ==> IsPlain(c)
  {
    if s != [] && IsPlain(s[0]) {
      PlainPrefix(s[1..]);
      assert s[..PlainLength(s)] == [s[0]] + s[1..][..PlainLength(s[1..])];
    }
  }

  lemma {:induction false} SuffixesWrap(ty: Ty, s: string)
    ensures Suffixes(ty, s).result == ty || Suffixes(ty, s).result.Arr?
    decreases |s|
  {
    if StartsWith(s, "[]") {
      SuffixesWrap(Arr(ty), s[2..]);
    }
  }

  // A text that starts with a quote reads as a plain literal, an array or a union.
  lemma QuotedIsPlain(s: string)
    requires s != [] && s[0] == '"'
    ensures ParseAlts(s).Ok? && Combined(ParseAlts(s).result).StrLit? ==>
              PlainLiteral(Str(Combined(ParseAlts(s).result).text))
  {
    PlainPrefix(s[1..]);
    var primary := ParsePrimary(s);
    if primary.Ok? {
      assert s[1..1 + PlainLength(s[1..])] == s[1..][..PlainLength(s[1..])];
      SuffixesWrap(primary.result, primary.rest);
    }
  }

  // Nothing inside a string literal is escaped.
  lemma StringLiteralReadsBackIff(text: string)
    ensures ParseType(LiteralText(Str(text))) == Some(StrLit(text)) <==> PlainLiteral(Str(text))
  {
    var s := LiteralText(Str(text));
    assert s + "" == s;
    if PlainLiteral(Str(text)) {
      StringReadsBack(text, "");
      assert ParsePrimary(s) == Ok(StrLit(text), "");
      MemberThenRest(s, StrLit(text), "");
    } else {
      QuotedIsPlain(s);
    }
  }

  // ----- Python's words -----

  // The other keywords of the schema admit the literal.
  predicate Remains(schema: Schema, lit: Literal) {
    && Redundant(schema.kind, lit)
    && (schema.value.Some? ==> LiteralValue(schema.value.value) == LiteralValue(lit))
  }

  lemma ValidLiteralIff(names: Names, schema: Schema, lit: Literal)
    requires schema.ref.None? && schema.anyOf.Absent?
    ensures Valid(names, schema, LiteralValue(lit)) <==>
              && Remains(schema, lit)
              && (schema.enum.Some? ==> exists i :: 0 <= i < |schema.enum.value| && LiteralValue(schema.enum.value[i]) == LiteralValue(lit))
  {
  }

  lemma LiteralInhabitsIff(names: Names, printed: Literal, lit: Literal)
    requires Readable(printed)
    ensures Inhabits(names, LiteralTy(printed), LiteralValue(lit)) <==>
              if printed.Word? then names(printed.text, LiteralValue(lit)) else LiteralValue(printed) == LiteralValue(lit)
  {
    if printed.Word? {
      assert printed.text in {"True", "False", "None"};
    }
  }

  // True, False and None print as names of types: a value survives if it is no
  // word, or if a component of the name of some printed word admits it.
  ghost predicate Survives(names: Names, lits: seq<Literal>, lit: Literal) {
    !lit.Word? || exists j: nat :: j < |lits| && lits[j].Word? && names(lits[j].text, LiteralValue(lit))
  }

  // What the j-th literal of a list prints as admits the value.
  predicate Carries(names: Names, lits: seq<Literal>, j: nat, lit: Literal)
    requires j < |lits|
  {
    if lits[j].Word? then names(lits[j].text, LiteralValue(lit)) else LiteralValue(lits[j]) == LiteralValue(lit)
  }

  lemma AdmitsIff(names: Names, lits: seq<Literal>, lit: Literal)
    requires forall j :: 0 <= j < |lits| ==> Readable(lits[j])
    ensures Admits(names, LiteralTys(lits), LiteralValue(lit)) <==> exists j: nat :: j < |lits| && Carries(names, lits, j, lit)
  {
    forall j: nat | j < |lits|
      ensures Inhabits(names, LiteralTys(lits)[j], LiteralValue(lit)) <==> Carries(names, lits, j, lit)
    {
      LiteralInhabitsIff(names, lits[j], lit);
    }
  }

  lemma OnlyWordsCarryWords(names: Names, lits: seq<Literal>, j: nat, word: Literal)
    requires j < |lits| && word.Word?
    ensures Carries(names, lits, j, word) <==> lits[j].Word? && names(lits[j].text, LiteralValue(word))
  {
  }

  lemma SurvivesIff(names: Names, lits: seq<Literal>, i: nat)
    requires forall j :: 0 <= j < |lits| ==> Readable(lits[j])
    requires i < |lits|
    ensures Admits(names, LiteralTys(lits), LiteralValue(lits[i])) <==> Survives(names, lits, lits[i])
  {
    AdmitsIff(names, lits, lits[i]);
    if lits[i].Word? {
      forall j: nat | j < |lits|
        ensures Carries(names, lits, j, lits[i]) <==> lits[j].Word? && names(lits[j].text, LiteralValue(lits[i]))
      {
        OnlyWordsCarryWords(names, lits, j, lits[i]);
      }
    } else {
      assert Carries(names, lits, i, lits[i]);
    }
  }

  lemma LiteralsParse(lits: seq<Literal>)
    requires forall i :: 0 <= i < |lits| ==> Readable(lits[i])
    ensures ParseType(Bars(LiteralTexts(lits)))
         == if lits == [] then None else Some(Combined(LiteralTys(lits)))
  {
    if lits != [] {
      LiteralsReadBack(lits, "");
      assert Bars(LiteralTexts(lits)) + "" == Bars(LiteralTexts(lits));
    }
  }

  lemma EnumIsSoundIff(names: Names, schema: Schema)
    requires schema.ref.None? && schema.anyOf.Absent? && schema.enum.Some?
    requires forall i :: 0 <= i < |schema.enum.value| ==> Readable(schema.enum.value[i])
    ensures var lits := schema.enum.value;
            SoundFor(names, schema) <==>
              lits != [] && forall lit :: lit in lits && Remains(schema, lit) ==> Survives(names, lits, lit)
  {
    var lits := schema.enum.value;
    LiteralsParse(lits);
    if lits != [] {
      LiteralsSoundIff(names, schema, lits);
    }
  }

  ghost predicate AllSurvive(names: Names, schema: Schema, lits: seq<Literal>) {
    forall lit :: lit in lits && Remains(schema, lit) ==> Survives(names, lits, lit)
  }

  lemma LiteralOfList(names: Names, schema: Schema, lits: seq<Literal>, i: nat)
    requires schema.ref.None? && schema.anyOf.Absent? && schema.enum == Some(lits)
    requires forall i :: 0 <= i < |lits| ==> Readable(lits[i])
    requires i < |lits|
    ensures Valid(names, schema, LiteralValue(lits[i])) <==> Remains(schema, lits[i])
    ensures Inhabits(names, Combined(LiteralTys(lits)), LiteralValue(lits[i])) <==> Survives(names, lits, lits[i])
  {
    ValidLiteralIff(names, schema, lits[i]);
    CombinedAdmits(names, LiteralTys(lits), LiteralValue(lits[i]));
    SurvivesIff(names, lits, i);
  }

  lemma ValidIsListed(names: Names, schema: Schema, lits: seq<Literal>, v: Value) returns (i: nat)
    requires schema.enum == Some(lits) && Valid(names, schema, v)
    ensures i < |lits| && LiteralValue(lits[i]) == v
  {
    i :| i < |lits| && LiteralValue(lits[i]) == v;
  }

  // The valid values are literals of the list.
  lemma LiteralsSoundIff(names: Names, schema: Schema, lits: seq<Literal>)
    requires schema.ref.None? && schema.anyOf.Absent? && schema.enum == Some(lits) && lits != []
    requires forall i :: 0 <= i < |lits| ==> Readable(lits[i])
    ensures SoundAs(names, schema, Combined(LiteralTys(lits))) <==> AllSurvive(names, schema, lits)
  {
    var ty := Combined(LiteralTys(lits));
    if AllSurvive(names, schema, lits) {
      forall v | Valid(names, schema, v) ensures Inhabits(names, ty, v) {
        var i := ValidIsListed(names, schema, lits, v);
        LiteralOfList(names, schema, lits, i);
      }
    }
    if SoundAs(names, schema, ty) {
      forall lit | lit in lits && Remains(schema, lit) ensures Survives(names, lits, lit) {
        var i: nat :| i < |lits| && lits[i] == lit;
        LiteralOfList(names, schema, lits, i);
      }
    }
  }

  lemma ConstIsSoundIff(names: Names, schema: Schema)
    requires schema.ref.None? && schema.anyOf.Absent? && schema.enum.None? && schema.value.Some?
    requires Readable(schema.value.value)
    ensures var lit := schema.value.value;
            SoundFor(names, schema) <==> !lit.Word? || !Redundant(schema.kind, lit) || names(lit.text, LiteralValue(lit))
  {
    var lit := schema.value.value;
    LiteralsParse([lit]);
    assert LiteralTexts([lit]) == [LiteralText(lit)];
    assert LiteralTys([lit]) == [LiteralTy(lit)];
    ValidLiteralIff(names, schema, lit);
    LiteralInhabitsIff(names, lit, lit);
    assert forall v :: Valid(names, schema, v) ==> v == LiteralValue(lit);
  }

  // ----- References -----

  predicate Identifier(name: string) {
    name != [] && IsLetter(name[0]) && forall c :: c in name ==> IsNamePart(c)
  }

  lemma {:induction false} NamePrefix(s: string)
    ensures forall c :: c in s[..NameLength(s)] ==> IsNamePart(c)
  {
    if s != [] && IsNamePart(s[0]) {
      NamePrefix(s[1..]);
      assert s[..NameLength(s)] == [s[0]] + s[1..][..NameLength(s[1..])];
    }
  }

  lemma {:induction false} PrimaryNames(s: string)
    ensures ParsePrimary(s).Ok? && ParsePrimary(s).result.Name? ==> Identifier(ParsePrimary(s).result.name)
    decreases |s|, 0
  {
    if s != [] && s[0] == '(' {
      ReadNames(s[1..]);
    } else if s != [] && IsLetter(s[0]) {
      NamePrefix(s);
    }
  }

  // Whatever text is read, a name that comes out is an identifier.
  lemma {:induction false} ReadNames(s: string)
    ensures ParseAlts(s).Ok? && Combined(ParseAlts(s).result).Name? ==> Identifier(Combined(ParseAlts(s).result).name)
    decreases |s|, 1
  {
    PrimaryNames(s);
    var primary := ParsePrimary(s);
    if primary.Ok? {
      SuffixesWrap(primary.result, primary.rest);
    }
  }

  // A component that the type checker would call by another name.
  lemma ReferenceReadsBackIff(ref: string)
    ensures ParseType(TsType(BLANK.(ref := Some(ref)))) == Some(Name(AfterSlash(ref))) <==> Identifier(AfterSlash(ref))
  {
    var name := AfterSlash(ref);
    assert name + "" == name;
    if Identifier(name) {
      if name != "Record" {
        NameReadsBack(name, "");
      } else {
        assert ParsePostfix(name) == Suffixes(Name(name), "") by { RecordIsAName(); }
      }
      MemberThenRest(name, Name(name), "");
    } else {
      ReadNames(name);
    }
  }

  lemma RecordIsAName()
    ensures ParsePostfix("Record") == Suffixes(Name("Record"), "")
  {
    NameEnds("Record", "");
    assert "Record" + "" == "Record";
    assert "Record"[..6] == "Record" && "Record"[6..] == "";
  }

  // ----- Records -----

  // Whatever a listed property allows, rest allows.
  ghost predicate ListedFit(names: Names, schema: Schema, rest: Ty) {
    forall key: string, v: Value :: Listed(schema.properties, key) && ValidField(names, schema, (key, v)) ==>
      Inhabits(names, rest, v)
  }

  predicate RestPrintable(schema: Schema) {
    schema.additional.Some? && schema.additional.value.Of? ==>
      Printable(schema.additional.value.schema) && Faithful(schema.additional.value.schema)
  }

  // additionalProperties alone turns every valid value into a record: sound only
  // if "type": "object" is there too, and if the values that the listed
  // properties allow would do as additional ones.
  lemma RecordIsSoundIff(names: Names, schema: Schema)
    requires ByType(schema) && schema.kind != Some("array") && (schema.kind == Some("object") || schema.additional.Some?)
    requires RestPrintable(schema)
    ensures SoundFor(names, schema) <==>
              && schema.kind == Some("object")
              && (schema.additional.Some? && schema.additional.value.Of? ==>
                    ListedFit(names, schema, Combined(Alts(schema.additional.value.schema))))
  {
    RoundTrip(schema);
    if schema.kind != Some("object") {
      assert Valid(names, schema, VNull) && !Inhabits(names, Alts(schema)[0], VNull);
    } else if schema.additional.Some? && schema.additional.value.Of? {
      FieldsAreSoundIff(names, schema);
    } else {
      assert SoundAs(names, schema, Rec(Name("unknown")));
    }
  }

  lemma FieldsAreSoundIff(names: Names, schema: Schema)
    requires ByType(schema) && schema.kind == Some("object")
    requires schema.additional.Some? && schema.additional.value.Of? && RestPrintable(schema)
    ensures var rest := Combined(Alts(schema.additional.value.schema));
            SoundAs(names, schema, Rec(rest)) <==> ListedFit(names, schema, rest)
  {
    var rest := Combined(Alts(schema.additional.value.schema));
    if ListedFit(names, schema, rest) {
      forall v | Valid(names, schema, v) ensures Inhabits(names, Rec(rest), v) {
        forall j | 0 <= j < |v.fields| ensures Inhabits(names, rest, v.fields[j].1) {
          assert v.fields[j] == (v.fields[j].0, v.fields[j].1);
          FieldIsSound(names, schema, v.fields[j]);
        }
      }
    } else {
      var key, v :| Listed(schema.properties, key) && ValidField(names, schema, (key, v)) && !Inhabits(names, rest, v);
      var record := VObj([(key, v)]);
      assert Valid(names, schema, record);
      assert record.fields[0].1 == v;
    }
  }

  // A field that is not listed is sound.
  lemma FieldIsSound(names: Names, schema: Schema, field: (string, Value))
    requires schema.additional.Some? && schema.additional.value.Of? && RestPrintable(schema)
    requires ValidField(names, schema, field)
    ensures Listed(schema.properties, field.0) || Inhabits(names, Combined(Alts(schema.additional.value.schema)), field.1)
  {
    var rest := schema.additional.value.schema;
    if !Listed(schema.properties, field.0) {
      RoundTrip(rest);
      Sound(names, rest, field.1);
      CombinedAdmits(names, Alts(rest), field.1);
    }
  }
}
