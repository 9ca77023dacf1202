// What the compiled type admits, against what the schema admits.
module TsMeaning {
  import opened Wrappers
  import opened TsTypes
  import opened TsLaws

  // Some member of the union admits v.
  ghost predicate Admits(names: Names, alts: seq<Ty>, v: Value) {
    exists i: nat :: i < |alts| && Inhabits(names, alts[i], v)
  }

  lemma CombinedAdmits(names: Names, alts: seq<Ty>, v: Value)
    requires alts != []
    ensures Inhabits(names, Combined(alts), v) <==> Admits(names, alts, v)
  {
    assert |alts| == 1 ==> (Inhabits(names, alts[0], v) <==> Admits(names, alts, v));
  }

  // The printed text, read with TypeScript's precedence, is the intended type.
  lemma RoundTrip(schema: Schema)
    requires Printable(schema)
    ensures Alts(schema) != []
    ensures ParseType(TsType(schema)) == Some(Combined(Alts(schema)))
  {
    TypeReadsBack(schema, "");
    assert TsType(schema) + "" == TsType(schema);
  }

  // Dropping an option that prints like an earlier one loses nothing.
  lemma SameTextSameType(a: Schema, b: Schema)
    requires Printable(a) && Printable(b) && TsType(a) == TsType(b)
    ensures Alts(a) == Alts(b)
  {
    TypeReadsBack(a, "");
    TypeReadsBack(b, "");
  }

  lemma {:induction false} OptionIsKept(options: seq<Schema>, seen: set<string>, i: nat, ty: Ty)
    requires forall k :: 0 <= k < |options| ==> Printable(options[k])
    requires i < |options| && TsType(options[i]) !in seen
    requires ty in Alts(options[i])
    ensures ty in AltsOf(options, seen)
  {
    if i > 0 {
      if TsType(options[0]) in seen {
        OptionIsKept(options[1..], seen, i - 1, ty);
      } else if TsType(options[0]) == TsType(options[i]) {
        SameTextSameType(options[0], options[i]);
      } else {
        OptionIsKept(options[1..], seen + {TsType(options[0])}, i - 1, ty);
      }
    }
  }

  lemma {:induction false} OptionOf(options: seq<Schema>, seen: set<string>, ty: Ty) returns (i: nat)
    requires ty in AltsOf(options, seen)
    ensures i < |options| && ty in Alts(options[i])
  {
    if TsType(options[0]) in seen {
      var k := OptionOf(options[1..], seen, ty);
      i := k + 1;
    } else if ty in Alts(options[0]) {
      i := 0;
    } else {
      var k := OptionOf(options[1..], seen + {TsType(options[0])}, ty);
      i := k + 1;
    }
  }

  lemma OptionIsSound(names: Names, options: seq<Schema>, i: nat, v: Value)
    requires forall k :: 0 <= k < |options| ==> Printable(options[k])
    requires i < |options| && Admits(names, Alts(options[i]), v)
    ensures Admits(names, AltsOf(options, {}), v)
  {
    var k: nat :| k < |Alts(options[i])| && Inhabits(names, Alts(options[i])[k], v);
    OptionIsKept(options, {}, i, Alts(options[i])[k]);
  }

  // Some option admits what the union admits.
  lemma OptionAdmits(names: Names, options: seq<Schema>, v: Value) returns (i: nat)
    requires Admits(names, AltsOf(options, {}), v)
    ensures i < |options| && Admits(names, Alts(options[i]), v)
  {
    var k: nat :| k < |AltsOf(options, {})| && Inhabits(names, AltsOf(options, {})[k], v);
    i := OptionOf(options, {}, AltsOf(options, {})[k]);
  }

  // A schema without subschemas.
  predicate Leaf(schema: Schema) {
    schema.ref.Some? || (schema.anyOf.Absent? && (schema.enum.Some? || schema.value.Some? || IsScalar(schema.kind)))
  }

  // ----- Reading every integer as a number allows more -----

  lemma {:induction false} AllowsMore(names: Names, schema: Schema, v: Value)
    requires Valid(names, schema, v)
    ensures Valid(names, Widened(schema), v)
    decreases schema, 2
  {
    if schema.anyOf.Present? {
      AllowsMoreOptions(names, schema.anyOf.options, v);
    }
    if schema.items.Some? && v.VArr? {
      AllowsMoreItems(names, schema.items.value, v.elements);
    }
    if v.VObj? {
      AllowsMoreObject(names, schema, v);
    }
  }

  lemma {:induction false} AllowsMoreObject(names: Names, schema: Schema, v: Value)
    requires v.VObj? && forall j :: 0 <= j < |v.fields| ==> ValidField(names, schema, v.fields[j])
    ensures forall j :: 0 <= j < |v.fields| ==> ValidField(names, Widened(schema), v.fields[j])
    decreases schema, 1
  {
    forall j | 0 <= j < |v.fields| ensures ValidField(names, Widened(schema), v.fields[j]) {
      AllowsMoreFields(names, schema, v.fields[j]);
    }
  }

  lemma {:induction false} AllowsMoreOptions(names: Names, options: seq<Schema>, v: Value)
    requires exists i :: 0 <= i < |options| && Valid(names, options[i], v)
    ensures exists i :: 0 <= i < |options| && Valid(names, WidenedAll(options)[i], v)
    decreases options, 0
  {
    var i :| 0 <= i < |options| && Valid(names, options[i], v);
    AllowsMore(names, options[i], v);
    assert Valid(names, WidenedAll(options)[i], v);
  }

  lemma {:induction false} AllowsMoreItems(names: Names, item: Schema, elements: seq<Value>)
    requires forall i :: 0 <= i < |elements| ==> Valid(names, item, elements[i])
    ensures forall i :: 0 <= i < |elements| ==> Valid(names, Widened(item), elements[i])
    decreases item, 3
  {
    forall i | 0 <= i < |elements| ensures Valid(names, Widened(item), elements[i]) {
      AllowsMore(names, item, elements[i]);
    }
  }

  lemma WidenedListed(schema: Schema, key: string)
    ensures Listed(Widened(schema).properties, key) <==> Listed(schema.properties, key)
  {
    var wide := Widened(schema).properties;
    if i :| 0 <= i < |schema.properties| && schema.properties[i].0 == key {
      assert wide[i].0 == key;
    }
  }

  lemma {:induction false} AllowsMoreFields(names: Names, schema: Schema, field: (string, Value))
    requires ValidField(names, schema, field)
    ensures ValidField(names, Widened(schema), field)
    decreases schema, 0
  {
    var wide := Widened(schema);
    WidenedListed(schema, field.0);
    forall i | 0 <= i < |wide.properties| && wide.properties[i].0 == field.0 ensures Valid(names, wide.properties[i].1, field.1) {
      AllowsMore(names, schema.properties[i].1, field.1);
    }
    if schema.additional.Some? && schema.additional.value.Of? && !Listed(schema.properties, field.0) {
      AllowsMore(names, schema.additional.value.schema, field.1);
    }
  }

  // ----- Soundness -----

  lemma LeafIsSound(names: Names, schema: Schema, v: Value)
    requires Printable(schema) && Faithful(schema) && Leaf(schema) && Valid(names, Widened(schema), v)
    ensures Admits(names, Alts(schema), v)
  {
    if schema.ref.None? && schema.enum.Some? {
      var i :| 0 <= i < |schema.enum.value| && LiteralValue(schema.enum.value[i]) == v;
      assert Inhabits(names, Alts(schema)[i], v);
    } else {
      assert Inhabits(names, Alts(schema)[0], v);
    }
  }

  // Every value that is valid with integers read as numbers inhabits the emitted type.
  lemma {:induction false} WidenedIsSound(names: Names, schema: Schema, v: Value)
    requires Printable(schema) && Faithful(schema) && Valid(names, Widened(schema), v)
    ensures Admits(names, Alts(schema), v)
    decreases schema, 1
  {
    if Leaf(schema) {
      LeafIsSound(names, schema, v);
    } else if schema.anyOf.Present? {
      var wide := Widened(schema).anyOf.options;
      var i :| 0 <= i < |wide| && Valid(names, wide[i], v);
      WidenedIsSound(names, schema.anyOf.options[i], v);
      OptionIsSound(names, schema.anyOf.options, i, v);
    } else {
      if schema.kind == Some("array") {
        if schema.items.Some? {
          ItemsAreSound(names, schema.items.value, v);
        }
      } else if schema.kind == Some("object") {
        if schema.additional.Some? && schema.additional.value.Of? {
          FieldsAreSound(names, schema, v);
        }
      }
      assert Inhabits(names, Alts(schema)[0], v);
    }
  }

  lemma {:induction false} ItemsAreSound(names: Names, item: Schema, v: Value)
    requires Printable(item) && Faithful(item)
    requires v.VArr? && forall i :: 0 <= i < |v.elements| ==> Valid(names, Widened(item), v.elements[i])
    ensures Inhabits(names, Arr(Combined(Alts(item))), v)
    decreases item, 2
  {
    forall i | 0 <= i < |v.elements| ensures Inhabits(names, Combined(Alts(item)), v.elements[i]) {
      RoundTrip(item);
      WidenedIsSound(names, item, v.elements[i]);
      CombinedAdmits(names, Alts(item), v.elements[i]);
    }
  }

  lemma {:induction false} FieldsAreSound(names: Names, schema: Schema, v: Value)
    requires schema.additional.Some? && schema.additional.value.Of? && schema.properties == []
    requires Printable(schema.additional.value.schema) && Faithful(schema.additional.value.schema)
    requires v.VObj? && forall j :: 0 <= j < |v.fields| ==> ValidField(names, Widened(schema), v.fields[j])
    ensures Inhabits(names, Rec(Combined(Alts(schema.additional.value.schema))), v)
    decreases schema, 0
  {
    var rest := schema.additional.value.schema;
    forall j | 0 <= j < |v.fields| ensures Inhabits(names, Combined(Alts(rest)), v.fields[j].1) {
      RoundTrip(rest);
      assert ValidField(names, Widened(schema), v.fields[j]);
      WidenedIsSound(names, rest, v.fields[j].1);
      CombinedAdmits(names, Alts(rest), v.fields[j].1);
    }
  }

  lemma Sound(names: Names, schema: Schema, v: Value)
    requires Printable(schema) && Faithful(schema) && Valid(names, schema, v)
    ensures Admits(names, Alts(schema), v)
  {
    AllowsMore(names, schema, v);
    WidenedIsSound(names, schema, v);
  }

  lemma CompileIsSound(names: Names, schema: Schema, v: Value)
    requires Printable(schema) && Faithful(schema) && Valid(names, schema, v)
    ensures var ty := ParseType(TsType(schema));
            ty.Some? && Inhabits(names, ty.value, v)
  {
    RoundTrip(schema);
    Sound(names, schema, v);
    CombinedAdmits(names, Alts(schema), v);
  }

  // ----- Schemas that say no more than the type -----

  lemma {:induction false} ExactIsFaithful(schema: Schema)
    requires Exact(schema)
    ensures Faithful(schema)
    decreases schema
  {
    if schema.ref.Some? {
    } else if schema.anyOf.Present? {
      forall i | 0 <= i < |schema.anyOf.options| ensures Faithful(schema.anyOf.options[i]) {
        ExactIsFaithful(schema.anyOf.options[i]);
      }
    } else if schema.enum.Some? || schema.value.Some? || IsScalar(schema.kind) {
    } else if schema.kind == Some("array") {
      if schema.items.Some? {
        ExactIsFaithful(schema.items.value);
      }
    } else if schema.kind == Some("object") && schema.additional.Some? && schema.additional.value.Of? {
      ExactIsFaithful(schema.additional.value.schema);
    }
  }

  lemma LiteralIsComplete(names: Names, lit: Literal, v: Value)
    requires PlainLiteral(lit) && Inhabits(names, LiteralTy(lit), v)
    ensures LiteralValue(lit) == v
  {
  }

  lemma ReferenceIsComplete(names: Names, schema: Schema, v: Value)
    requires schema.ref.Some? && Exact(schema) && Printable(schema) && Admits(names, Alts(schema), v)
    ensures Valid(names, Widened(schema), v)
  {
    assert Inhabits(names, Alts(schema)[0], v);
  }

  lemma EnumIsComplete(names: Names, schema: Schema, v: Value)
    requires schema.ref.None? && schema.anyOf.Absent? && schema.enum.Some?
    requires Exact(schema) && Printable(schema) && Admits(names, Alts(schema), v)
    ensures Valid(names, Widened(schema), v)
  {
    var k: nat :| k < |Alts(schema)| && Inhabits(names, Alts(schema)[k], v);
    assert Alts(schema)[k] == LiteralTy(schema.enum.value[k]);
    LiteralIsComplete(names, schema.enum.value[k], v);
  }

  lemma ConstIsComplete(names: Names, schema: Schema, v: Value)
    requires schema.ref.None? && schema.anyOf.Absent? && schema.enum.None? && schema.value.Some?
    requires Exact(schema) && Printable(schema) && Admits(names, Alts(schema), v)
    ensures Valid(names, Widened(schema), v)
  {
    assert Inhabits(names, Alts(schema)[0], v);
    LiteralIsComplete(names, schema.value.value, v);
  }

  lemma ScalarIsComplete(names: Names, kind: string, v: Value)
    requires IsScalar(Some(kind)) && Admits(names, [Name(ScalarName(kind))], v)
    ensures Valid(names, Widened(BLANK.(kind := Some(kind))), v)
  {
    assert Inhabits(names, Name(ScalarName(kind)), v);
  }

  lemma LeafIsComplete(names: Names, schema: Schema, v: Value)
    requires Printable(schema) && Exact(schema) && Leaf(schema) && Admits(names, Alts(schema), v)
    ensures Valid(names, Widened(schema), v)
  {
    if schema.ref.Some? {
      ReferenceIsComplete(names, schema, v);
    } else if schema.enum.Some? {
      EnumIsComplete(names, schema, v);
    } else if schema.value.Some? {
      ConstIsComplete(names, schema, v);
    } else {
      ScalarIsComplete(names, schema.kind.value, v);
    }
  }

  lemma {:induction false} Complete(names: Names, schema: Schema, v: Value)
    requires Printable(schema) && Exact(schema) && Admits(names, Alts(schema), v)
    ensures Valid(names, Widened(schema), v)
    decreases schema, 2
  {
    if Leaf(schema) {
      LeafIsComplete(names, schema, v);
    } else if schema.anyOf.Present? {
      UnionIsComplete(names, schema, v);
    } else {
      TypedIsComplete(names, schema, v);
    }
  }

  lemma {:induction false} UnionIsComplete(names: Names, schema: Schema, v: Value)
    requires schema.ref.None? && schema.anyOf.Present?
    requires Printable(schema) && Exact(schema) && Admits(names, Alts(schema), v)
    ensures Valid(names, Widened(schema), v)
    decreases schema, 1
  {
    var i := OptionAdmits(names, schema.anyOf.options, v);
    Complete(names, schema.anyOf.options[i], v);
    assert Valid(names, Widened(schema).anyOf.options[i], v);
  }

  lemma {:induction false} TypedIsComplete(names: Names, schema: Schema, v: Value)
    requires ByType(schema)
    requires Printable(schema) && Exact(schema) && Admits(names, Alts(schema), v)
    ensures Valid(names, Widened(schema), v)
    decreases schema, 1
  {
    assert Inhabits(names, Alts(schema)[0], v);
    if schema.kind == Some("array") {
      if schema.items.Some? {
        ItemsAreComplete(names, schema.items.value, v);
      }
      ArrayIsComplete(names, schema, v);
    } else if schema.kind == Some("object") {
      if schema.additional.Some? && schema.additional.value.Of? {
        FieldsAreComplete(names, schema, v);
      }
      ObjectIsComplete(names, schema, v);
    }
  }

  lemma ArrayIsComplete(names: Names, schema: Schema, v: Value)
    requires schema == BLANK.(kind := Some("array"), items := schema.items) && v.VArr?
    requires schema.items.Some? ==> forall i :: 0 <= i < |v.elements| ==> Valid(names, Widened(schema.items.value), v.elements[i])
    ensures Valid(names, Widened(schema), v)
  {
  }

  lemma ObjectIsComplete(names: Names, schema: Schema, v: Value)
    requires schema == BLANK.(kind := Some("object"), additional := schema.additional) && v.VObj?
    requires schema.additional == Some(Any(false)) ==> v.fields == []
    requires schema.additional.Some? && schema.additional.value.Of? ==>
               forall j :: 0 <= j < |v.fields| ==> ValidField(names, Widened(schema), v.fields[j])
    ensures Valid(names, Widened(schema), v)
  {
  }

  lemma {:induction false} ItemsAreComplete(names: Names, item: Schema, v: Value)
    requires Printable(item) && Exact(item)
    requires Inhabits(names, Arr(Combined(Alts(item))), v)
    ensures v.VArr? && forall i :: 0 <= i < |v.elements| ==> Valid(names, Widened(item), v.elements[i])
    decreases item, 3
  {
    forall i | 0 <= i < |v.elements| ensures Valid(names, Widened(item), v.elements[i]) {
      RoundTrip(item);
      CombinedAdmits(names, Alts(item), v.elements[i]);
      Complete(names, item, v.elements[i]);
    }
  }

  lemma {:induction false} FieldsAreComplete(names: Names, schema: Schema, v: Value)
    requires schema.additional.Some? && schema.additional.value.Of? && schema.properties == []
    requires Printable(schema.additional.value.schema) && Exact(schema.additional.value.schema)
    requires Inhabits(names, Rec(Combined(Alts(schema.additional.value.schema))), v)
    ensures v.VObj? && forall j :: 0 <= j < |v.fields| ==> ValidField(names, Widened(schema), v.fields[j])
    decreases schema, 0
  {
    var rest := schema.additional.value.schema;
    forall j | 0 <= j < |v.fields| ensures ValidField(names, Widened(schema), v.fields[j]) {
      RoundTrip(rest);
      CombinedAdmits(names, Alts(rest), v.fields[j].1);
      Complete(names, rest, v.fields[j].1);
    }
  }

  // The emitted type admits the values that are valid with every integer read as a
  // number, and no others.
  lemma CompileIsExact(names: Names, schema: Schema, v: Value)
    requires Printable(schema) && Exact(schema)
    ensures var ty := ParseType(TsType(schema));
            ty.Some? && (Inhabits(names, ty.value, v) <==> Valid(names, Widened(schema), v))
  {
    RoundTrip(schema);
    ExactIsFaithful(schema);
    CombinedAdmits(names, Alts(schema), v);
    if Valid(names, Widened(schema), v) {
      WidenedIsSound(names, schema, v);
    } else if Admits(names, Alts(schema), v) {
      Complete(names, schema, v);
    }
  }

  // Without integers those are the valid values.
  predicate Integerless(schema: Schema) {
    Widened(schema) == schema
  }

  lemma CompileIsExactWithoutIntegers(names: Names, schema: Schema, v: Value)
    requires Printable(schema) && Exact(schema) && Integerless(schema)
    ensures var ty := ParseType(TsType(schema));
            ty.Some? && (Inhabits(names, ty.value, v) <==> Valid(names, schema, v))
  {
    CompileIsExact(names, schema, v);
  }
}
