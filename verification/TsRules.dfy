// Which texts a union lists, and in which order (scripts/generate_frontend_api_types.py:21-26).
module TsRules {
  import opened Wrappers
  import opened PyText
  import opened TsTypes

  // ----- The options of a union -----

  predicate Before(parts: seq<string>, x: string, q: nat) {
    exists p :: 0 <= p < q && p < |parts| && parts[p] == x
  }

  // `r` lists the texts of `parts` that are not in `seen`, each once, where it first occurs.
  ghost predicate FirstsOf(r: seq<string>, parts: seq<string>, seen: set<string>) {
    && (forall x :: x in r <==> x in parts && x !in seen)
    && (forall i, j :: 0 <= i < j < |r| ==> r[i] != r[j])
    && (forall i, j, q :: 0 <= i < j < |r| && 0 <= q < |parts| && parts[q] == r[j] ==> Before(parts, r[i], q))
  }

  lemma {:induction false} DistinctIsFirsts(parts: seq<string>, seen: set<string>)
    ensures FirstsOf(Distinct(parts, seen), parts, seen)
  {
    if parts != [] {
      var first, rest := parts[0], parts[1..];
      assert parts == [first] + rest;
      if first in seen {
        DistinctIsFirsts(rest, seen);
        SeenAgain(first, rest, Distinct(rest, seen), seen);
      } else {
        DistinctIsFirsts(rest, seen + {first});
        NewFirst(first, rest, Distinct(rest, seen + {first}), seen);
      }
    }
  }

  lemma BeforeShifts(first: string, rest: seq<string>, x: string, q: nat)
    requires q > 0 && Before(rest, x, q - 1)
    ensures Before([first] + rest, x, q)
  {
    var p :| 0 <= p < q - 1 && p < |rest| && rest[p] == x;
    assert ([first] + rest)[p + 1] == x;
  }

  lemma SeenAgain(first: string, rest: seq<string>, r: seq<string>, seen: set<string>)
    requires FirstsOf(r, rest, seen) && first in seen
    ensures FirstsOf(r, [first] + rest, seen)
  {
    var parts := [first] + rest;
    forall i, j, q | 0 <= i < j < |r| && 0 <= q < |parts| && parts[q] == r[j] ensures Before(parts, r[i], q) {
      assert r[j] in r && q > 0 && rest[q - 1] == r[j];
      BeforeShifts(first, rest, r[i], q);
    }
  }

  lemma NewFirst(first: string, rest: seq<string>, tail: seq<string>, seen: set<string>)
    requires FirstsOf(tail, rest, seen + {first}) && first !in seen
    ensures FirstsOf([first] + tail, [first] + rest, seen)
  {
    var parts, r := [first] + rest, [first] + tail;
    assert forall x :: x in r <==> x == first || x in tail;
    forall i, j, q | 0 <= i < j < |r| && 0 <= q < |parts| && parts[q] == r[j] ensures Before(parts, r[i], q) {
      assert r[j] == tail[j - 1] && tail[j - 1] in tail;
      assert q > 0 && rest[q - 1] == tail[j - 1];
      if i == 0 {
        assert parts[0] == first;
      } else {
        assert r[i] == tail[i - 1];
        BeforeShifts(first, rest, r[i], q);
      }
    }
  }

  lemma {:induction false} BarsIsJoin(parts: seq<string>)
    ensures Bars(parts) == Join(parts, " | ")
  {
    if |parts| > 1 {
      BarsIsJoin(parts[1..]);
    }
  }

  lemma {:induction false} PrintoutAt(options: seq<Schema>, i: nat)
    requires i < |options|
    ensures Printouts(options)[i] == TsType(options[i])
  {
    if i > 0 {
      PrintoutAt(options[1..], i - 1);
      assert Printouts(options)[1..] == Printouts(options[1..]);
    }
  }

  // A union prints its options' texts with bars between them: every text once, where an
  // option first prints it, and no other text.
  lemma UnionIs(schema: Schema) returns (texts: seq<string>)
    requires schema.ref.None? && schema.anyOf.Present?
    ensures TsType(schema) == Join(texts, " | ")
    ensures forall x :: x in texts <==> exists i :: 0 <= i < |schema.anyOf.options| && TsType(schema.anyOf.options[i]) == x
    ensures forall i, j :: 0 <= i < j < |texts| ==> texts[i] != texts[j]
    ensures forall i: nat, j: nat, q: nat | i < j < |texts| && q < |schema.anyOf.options| && TsType(schema.anyOf.options[q]) == texts[j] ::
              exists p: nat :: p < q && TsType(schema.anyOf.options[p]) == texts[i]
  {
    var options := schema.anyOf.options;
    var parts := Printouts(options);
    texts := Distinct(parts, {});
    DistinctIsFirsts(parts, {});
    BarsIsJoin(texts);
    forall i: nat | i < |options| ensures parts[i] == TsType(options[i]) {
      PrintoutAt(options, i);
    }
    forall i: nat, j: nat, q: nat | i < j < |texts| && q < |options| && TsType(options[q]) == texts[j]
      ensures exists p: nat :: p < q && TsType(options[p]) == texts[i]
    {
      assert parts[q] == texts[j];
      assert Before(parts, texts[i], q);
    }
  }

  // ----- The name of a reference -----

  // A reference prints what follows its last slash.
  lemma ReferenceIs(schema: Schema, name: string)
    requires schema.ref.Some?
    ensures IsName(schema.ref.value, name) <==> TsType(schema) == name
  {
    NameIff(schema.ref.value, name);
  }
}
