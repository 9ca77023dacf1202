// The printed types read back (scripts/generate_frontend_api_types.py:21-49).
module TsLaws {
  // Reading the printed text with TypeScript's precedence gives back the type that it
  // is meant to be.

  import opened Wrappers
  import opened PyText
  import opened TsTypes

  // ----- The type that the text is meant to be -----

  function LiteralTy(lit: Literal): Ty {
    match lit
    case Str(text) => StrLit(text)
    case Num(text) => NumLit(text)
    case Word(text) => Name(text)
  }

  function LiteralTys(lits: seq<Literal>): (r: seq<Ty>)
    ensures |r| == |lits|
    ensures forall i :: 0 <= i < |lits| ==> r[i] == LiteralTy(lits[i])
  {
    if lits == [] then [] else [LiteralTy(lits[0])] + LiteralTys(lits[1..])
  }

  // The members of the union that a schema stands for, nested unions flattened.
  function Alts(schema: Schema): seq<Ty>
    decreases schema
  {
    if schema.ref.Some? then [Name(AfterSlash(schema.ref.value))]
    else if schema.anyOf.Present? then AltsOf(schema.anyOf.options, {})
    else if schema.enum.Some? then LiteralTys(schema.enum.value)
    else if schema.value.Some? then [LiteralTy(schema.value.value)]
    else if IsScalar(schema.kind) then [Name(ScalarName(schema.kind.value))]
    else if schema.kind == Some("array") then
      [Arr(if schema.items.Some? then Combined(Alts(schema.items.value)) else Name("unknown"))]
    else if schema.kind == Some("object") || schema.additional.Some? then
      if schema.additional.Some? && schema.additional.value.Of?
      then [Rec(Combined(Alts(schema.additional.value.schema)))]
      else [Rec(Name("unknown"))]
    else [Name("unknown")]
  }

  // An option printed like an earlier one is left out.
  function AltsOf(options: seq<Schema>, seen: set<string>): seq<Ty>
    decreases options
  {
    if options == [] then []
    else if TsType(options[0]) in seen then AltsOf(options[1..], seen)
    else Alts(options[0]) + AltsOf(options[1..], seen + {TsType(options[0])})
  }

  // ----- Reading one token -----

  // What may follow a complete union member.
  predicate Stops(tail: string) {
    tail == [] || tail[0] in ")>;" || StartsWith(tail, " | ")
  }

  // What may follow a member that is not complete yet.
  predicate Pauses(tail: string) {
    Stops(tail) || StartsWith(tail, "[]")
  }

  lemma {:induction false} NameEnds(name: string, tail: string)
    requires forall c :: c in name ==> IsNamePart(c)
    requires Pauses(tail) || StartsWith(tail, "<")
    ensures NameLength(name + tail) == |name|
  {
    if name == [] {
      assert name + tail == tail;
    } else {
      assert (name + tail)[1..] == name[1..] + tail;
      NameEnds(name[1..], tail);
    }
  }

  lemma {:induction false} NumberEnds(text: string, tail: string)
    requires forall c :: c in text ==> IsNumberPart(c)
    requires Pauses(tail)
    ensures NumberLength(text + tail) == |text|
  {
    if text == [] {
      assert text + tail == tail;
    } else {
      assert (text + tail)[1..] == text[1..] + tail;
      NumberEnds(text[1..], tail);
    }
  }

  lemma {:induction false} PlainEnds(text: string, tail: string)
    requires forall c :: c in text ==> IsPlain(c)
    requires tail != [] && tail[0] == '"'
    ensures PlainLength(text + tail) == |text|
  {
    if text == [] {
      assert text + tail == tail;
    } else {
      assert (text + tail)[1..] == text[1..] + tail;
      PlainEnds(text[1..], tail);
    }
  }

  lemma NameReadsBack(name: string, tail: string)
    requires name != [] && IsLetter(name[0]) && name != "Record"
    requires forall c :: c in name ==> IsNamePart(c)
    requires Pauses(tail)
    ensures ParsePostfix(name + tail) == Suffixes(Name(name), tail)
  {
    NameEnds(name, tail);
    var s := name + tail;
    assert s[0] == name[0];
    assert s[..|name|] == name && s[|name|..] == tail;
    assert ParsePrimary(s) == Ok(Name(name), tail);
  }

  lemma StringReadsBack(text: string, tail: string)
    requires PlainLiteral(Str(text))
    ensures ParsePrimary(("\"" + text + "\"") + tail) == Ok(StrLit(text), tail)
  {
    var s := ("\"" + text + "\"") + tail;
    var after := text + ("\"" + tail);
    assert s == "\"" + after;
    PlainEnds(text, "\"" + tail);
    assert after[..|text|] == text && after[|text|] == '"' && after[|text| + 1..] == tail;
    assert s[1..] == after && s[1..1 + |text|] == text && s[|text| + 2..] == tail;
  }

  lemma NumberReadsBack(text: string, tail: string)
    requires PlainLiteral(Num(text))
    requires Pauses(tail)
    ensures ParsePrimary(text + tail) == Ok(NumLit(text), tail)
  {
    NumberEnds(text, tail);
    assert (text + tail)[0] == text[0];
    assert (text + tail)[..|text|] == text && (text + tail)[|text|..] == tail;
  }

  lemma LiteralReadsBack(lit: Literal, tail: string)
    requires Readable(lit)
    requires Pauses(tail)
    ensures ParsePostfix(LiteralText(lit) + tail) == Suffixes(LiteralTy(lit), tail)
  {
    match lit
    case Str(text) => StringReadsBack(text, tail);
    case Num(text) => NumberReadsBack(text, tail);
    case Word(text) => NameReadsBack(text, tail);
  }

  // ----- Reading a union -----

  // The rest of a union whose first members are `alts`.
  function Continue(alts: seq<Ty>, tail: string): Parsed<seq<Ty>> {
    if StartsWith(tail, " | ") then
      var more := ParseAlts(tail[3..]);
      if more.Fail? then Fail else Ok(alts + more.result, more.rest)
    else Ok(alts, tail)
  }

  lemma SuffixesStop(ty: Ty, tail: string)
    requires Stops(tail)
    ensures Suffixes(ty, tail) == Ok(ty, tail)
  {
  }

  // A single member followed by a stop.
  lemma MemberThenRest(text: string, ty: Ty, tail: string)
    requires Stops(tail)
    requires ParsePostfix(text + tail) == Suffixes(ty, tail)
    ensures ParseAlts(text + tail) == Continue([ty], tail)
  {
    SuffixesStop(ty, tail);
  }

  lemma {:induction false} LiteralsReadBack(lits: seq<Literal>, tail: string)
    requires lits != [] && forall i :: 0 <= i < |lits| ==> Readable(lits[i])
    requires Stops(tail)
    ensures ParseAlts(Bars(LiteralTexts(lits)) + tail) == Continue(LiteralTys(lits), tail)
  {
    var first := LiteralText(lits[0]);
    if |lits| == 1 {
      assert LiteralTexts(lits[1..]) == [];
      LiteralReadsBack(lits[0], tail);
      MemberThenRest(first, LiteralTy(lits[0]), tail);
      assert LiteralTys(lits) == [LiteralTy(lits[0])];
    } else {
      var rest := Bars(LiteralTexts(lits[1..]));
      assert LiteralTexts(lits) == [first] + LiteralTexts(lits[1..]);
      assert LiteralTexts(lits[1..]) != [];
      BarThenRest(first, LiteralTexts(lits[1..]), tail);
      LiteralsReadBack(lits[1..], tail);
      LiteralReadsBack(lits[0], " | " + (rest + tail));
      MemberThenRest(first, LiteralTy(lits[0]), " | " + (rest + tail));
      ContinueTwice([LiteralTy(lits[0])], LiteralTys(lits[1..]), rest, tail);
    }
  }

  lemma BarThenRest(first: string, more: seq<string>, tail: string)
    requires more != []
    ensures Bars([first] + more) + tail == first + (" | " + (Bars(more) + tail))
    ensures '|' in Bars([first] + more)
  {
    assert ([first] + more)[1..] == more;
    assert Bars([first] + more) == first + " | " + Bars(more);
    assert (first + " | " + Bars(more)) + tail == first + (" | " + (Bars(more) + tail));
    assert Bars([first] + more)[|first| + 1] == '|';
  }

  lemma ContinueTwice(alts: seq<Ty>, more: seq<Ty>, rest: string, tail: string)
    requires ParseAlts(rest + tail) == Continue(more, tail)
    ensures Continue(alts, " | " + (rest + tail)) == Continue(alts + more, tail)
  {
    assert (" | " + (rest + tail))[3..] == rest + tail;
    if StartsWith(tail, " | ") {
      var last := ParseAlts(tail[3..]);
      if last.Ok? {
        assert alts + (more + last.result) == (alts + more) + last.result;
      }
    }
  }

  // ----- Reading an array or a record -----

  lemma SuffixTaken(ty: Ty, tail: string)
    ensures Suffixes(ty, "[]" + tail) == Suffixes(Arr(ty), tail)
  {
    assert ("[]" + tail)[..2] == "[]" && ("[]" + tail)[2..] == tail;
  }

  lemma ArraySuffix(text: string, ty: Ty, tail: string)
    requires ParsePostfix(text + ("[]" + tail)) == Suffixes(ty, "[]" + tail)
    ensures ParsePostfix((text + "[]") + tail) == Suffixes(Arr(ty), tail)
  {
    assert (text + "[]") + tail == text + ("[]" + tail);
    SuffixTaken(ty, tail);
  }

  lemma Regroup(a: string, b: string, c: string, tail: string)
    ensures (a + b + c) + tail == a + (b + (c + tail))
  {
  }

  lemma Cut(a: string, b: string)
    ensures (a + b)[..|a|] == a && (a + b)[|a|..] == b
  {
  }

  lemma InParentheses(text: string, alts: seq<Ty>, tail: string)
    requires ParseAlts(text + (")" + ("[]" + tail))) == Continue(alts, ")" + ("[]" + tail))
    ensures ParsePostfix(("(" + text + ")[]") + tail) == Suffixes(Arr(Combined(alts)), tail)
  {
    var after := "[]" + tail;
    var inner := text + (")" + after);
    var s := ("(" + text + ")[]") + tail;
    Regroup("(", text, ")[]", tail);
    assert ")[]" + tail == ")" + after;
    assert s == "(" + inner;
    Cut("(", inner);
    Cut(")", after);
    assert ParsePrimary(s) == Ok(Combined(alts), after);
    SuffixTaken(Combined(alts), tail);
  }

  lemma RecordReadsBack(text: string, alts: seq<Ty>, tail: string)
    requires ParseAlts(text + (">" + tail)) == Continue(alts, ">" + tail)
    requires Pauses(tail)
    ensures ParsePostfix(RecordOf(text) + tail) == Suffixes(Rec(Combined(alts)), tail)
  {
    var s := RecordOf(text) + tail;
    var inner := text + (">" + tail);
    var after := "<string, " + inner;
    Regroup("Record<string, ", text, ">", tail);
    RecordHead(inner);
    NameEnds("Record", after);
    Cut(">", tail);
    assert ParsePrimary(s) == Ok(Rec(Combined(alts)), tail);
  }

  lemma RecordHead(inner: string)
    ensures var s := "Record<string, " + inner;
            var after := "<string, " + inner;
            s == "Record" + after && s[..6] == "Record" && s[6..] == after && after[..9] == "<string, " && s[6 + 9..] == inner
  {
    Regroup("Record", "<string, ", inner, "");
    Cut("Record", "<string, " + inner);
    Cut("<string, ", inner);
    Cut("Record<string, ", inner);
    assert "Record" + "<string, " == "Record<string, ";
  }

  lemma UnknownsReadBack(tail: string)
    requires Pauses(tail)
    ensures ParsePostfix(ArrayOf("unknown") + tail) == Suffixes(Arr(Name("unknown")), tail)
    ensures ParsePostfix(RecordOf("unknown") + tail) == Suffixes(Rec(Name("unknown")), tail)
  {
    var name := "unknown";
    assert IsLetter(name[0]) && forall c :: c in name ==> IsNamePart(c);
    NameReadsBack(name, "[]" + tail);
    ArraySuffix(name, Name(name), tail);
    assert ArrayOf(name) == name + "[]";
    NameReadsBack(name, ">" + tail);
    MemberThenRest(name, Name(name), ">" + tail);
    RecordReadsBack(name, [Name(name)], tail);
  }

  // ----- Unions of one member -----

  lemma DistinctFirst(options: seq<Schema>, seen: set<string>)
    requires options != [] && TsType(options[0]) !in seen
    ensures Distinct(Printouts(options), seen)
         == [TsType(options[0])] + Distinct(Printouts(options[1..]), seen + {TsType(options[0])})
  {
    assert Printouts(options)[1..] == Printouts(options[1..]);
  }

  lemma OnlyOption(options: seq<Schema>)
    requires options != []
    requires '|' !in Bars(Distinct(Printouts(options), {}))
    ensures Distinct(Printouts(options), {}) == [TsType(options[0])]
    ensures AltsOf(options, {}) == Alts(options[0])
  {
    var text := TsType(options[0]);
    var more := Distinct(Printouts(options[1..]), {} + {text});
    DistinctFirst(options, {});
    if more != [] {
      BarThenRest(text, more, "");
    }
    AllSeen(options[1..], {} + {text});
  }

  lemma OnlyLiteral(lits: seq<Literal>)
    requires lits != []
    requires '|' !in Bars(LiteralTexts(lits))
    ensures |lits| == 1
  {
    if |lits| > 1 {
      assert LiteralTexts(lits) == [LiteralText(lits[0])] + LiteralTexts(lits[1..]);
      assert LiteralTexts(lits[1..]) != [];
      BarThenRest(LiteralText(lits[0]), LiteralTexts(lits[1..]), "");
    }
  }

  lemma {:induction false} AllSeen(options: seq<Schema>, seen: set<string>)
    requires Distinct(Printouts(options), seen) == []
    ensures AltsOf(options, seen) == []
  {
    if options != [] {
      AllSeen(options[1..], seen);
    }
  }

  // ----- Reading a whole type -----

  // No keyword that goes before "type" is there.
  predicate ByType(schema: Schema) {
    schema.ref.None? && schema.anyOf.Absent? && schema.enum.None? && schema.value.None? && !IsScalar(schema.kind)
  }

  // The printed text of one member may be followed by "[]"; the text of a union
  // may not, which is why TsType puts parentheses around it.
  lemma {:induction false} MemberReadsBack(schema: Schema, tail: string)
    requires Printable(schema)
    requires '|' !in TsType(schema) || (schema.ref.None? && schema.anyOf.Absent? && schema.enum.None?)
    requires Pauses(tail)
    ensures |Alts(schema)| == 1
    ensures ParsePostfix(TsType(schema) + tail) == Suffixes(Alts(schema)[0], tail)
    decreases schema, 0
  {
    if schema.ref.Some? {
      NameReadsBack(AfterSlash(schema.ref.value), tail);
    } else if schema.anyOf.Present? {
      OnlyOption(schema.anyOf.options);
      MemberReadsBack(schema.anyOf.options[0], tail);
    } else if schema.enum.Some? {
      OnlyLiteral(schema.enum.value);
      LiteralReadsBack(schema.enum.value[0], tail);
    } else if schema.value.Some? {
      LiteralReadsBack(schema.value.value, tail);
    } else if IsScalar(schema.kind) {
      NameReadsBack(ScalarName(schema.kind.value), tail);
    } else if schema.kind == Some("array") {
      if schema.items.Some? {
        ItemReadsBack(schema.items.value, tail);
      }
      ArrayReadsBack(schema, tail);
    } else if schema.kind == Some("object") || schema.additional.Some? {
      if schema.additional.Some? && schema.additional.value.Of? {
        RestReadsBack(schema.additional.value.schema, tail);
      }
      ObjectReadsBack(schema, tail);
    } else {
      NameReadsBack("unknown", tail);
    }
  }

  lemma ArrayReadsBack(schema: Schema, tail: string)
    requires ByType(schema) && schema.kind == Some("array")
    requires Pauses(tail)
    requires schema.items.Some? ==>
      ParsePostfix(ArrayOf(TsType(schema.items.value)) + tail) == Suffixes(Arr(Combined(Alts(schema.items.value))), tail)
    ensures |Alts(schema)| == 1
    ensures ParsePostfix(TsType(schema) + tail) == Suffixes(Alts(schema)[0], tail)
  {
    UnknownsReadBack(tail);
    assert TsType(schema) == ArrayOf(if schema.items.Some? then TsType(schema.items.value) else "unknown");
  }

  lemma ObjectReadsBack(schema: Schema, tail: string)
    requires ByType(schema) && schema.kind != Some("array") && (schema.kind == Some("object") || schema.additional.Some?)
    requires Pauses(tail)
    requires schema.additional.Some? && schema.additional.value.Of? ==>
      var rest := schema.additional.value.schema;
      ParsePostfix(RecordOf(TsType(rest)) + tail) == Suffixes(Rec(Combined(Alts(rest))), tail)
    ensures |Alts(schema)| == 1
    ensures ParsePostfix(TsType(schema) + tail) == Suffixes(Alts(schema)[0], tail)
  {
    UnknownsReadBack(tail);
  }

  lemma {:induction false} RestReadsBack(rest: Schema, tail: string)
    requires Printable(rest)
    requires Pauses(tail)
    ensures ParsePostfix(RecordOf(TsType(rest)) + tail) == Suffixes(Rec(Combined(Alts(rest))), tail)
    decreases rest, 2
  {
    TypeReadsBack(rest, ">" + tail);
    RecordReadsBack(TsType(rest), Alts(rest), tail);
  }

  lemma {:induction false} TypeReadsBack(schema: Schema, tail: string)
    requires Printable(schema)
    requires Stops(tail)
    ensures ParseAlts(TsType(schema) + tail) == Continue(Alts(schema), tail)
    ensures Alts(schema) != []
    decreases schema, 1
  {
    if schema.ref.None? && schema.anyOf.Present? {
      OptionsReadBack(schema.anyOf.options, {}, tail);
    } else if schema.ref.None? && schema.enum.Some? {
      LiteralsReadBack(schema.enum.value, tail);
    } else {
      MemberReadsBack(schema, tail);
      MemberThenRest(TsType(schema), Alts(schema)[0], tail);
    }
  }

  lemma {:induction false} OptionsReadBack(options: seq<Schema>, seen: set<string>, tail: string)
    requires forall i :: 0 <= i < |options| ==> Printable(options[i])
    requires Stops(tail)
    ensures var texts := Distinct(Printouts(options), seen);
            texts != [] ==> AltsOf(options, seen) != [] && ParseAlts(Bars(texts) + tail) == Continue(AltsOf(options, seen), tail)
    decreases options
  {
    var texts := Distinct(Printouts(options), seen);
    if options == [] {
    } else if TsType(options[0]) in seen {
      OptionsReadBack(options[1..], seen, tail);
    } else {
      var text := TsType(options[0]);
      var more := Distinct(Printouts(options[1..]), seen + {text});
      DistinctFirst(options, seen);
      if more == [] {
        AllSeen(options[1..], seen + {text});
        assert AltsOf(options, seen) == Alts(options[0]);
        TypeReadsBack(options[0], tail);
      } else {
        var rest := Bars(more);
        BarThenRest(text, more, tail);
        OptionsReadBack(options[1..], seen + {text}, tail);
        TypeReadsBack(options[0], " | " + (rest + tail));
        ContinueTwice(Alts(options[0]), AltsOf(options[1..], seen + {text}), rest, tail);
      }
    }
  }

  lemma {:induction false} ItemReadsBack(item: Schema, tail: string)
    requires Printable(item)
    requires Pauses(tail)
    ensures ParsePostfix(ArrayOf(TsType(item)) + tail) == Suffixes(Arr(Combined(Alts(item))), tail)
    decreases item, 2
  {
    var text := TsType(item);
    if '|' in text {
      TypeReadsBack(item, ")" + ("[]" + tail));
      InParentheses(text, Alts(item), tail);
    } else {
      MemberReadsBack(item, "[]" + tail);
      ArraySuffix(text, Alts(item)[0], tail);
    }
  }
}
