/** The SQL text builders of the `sql` module: `build_where_clause`, and the
    statements `insert`, `insert_rows`, `update` and `select` hand to
    `cursor.execute`. The statement each one executes is returned here as a
    `Statement` value; the connection it runs on is not modelled.
    Identifiers (table, field and column names) are pasted in as given, as
    the source does. */
module Sql {
  import opened Wrappers
  import opened Values
  import opened Text
  import Database

  /** The logical operator of a condition (`Literal['AND', 'OR']`). */
  datatype LogicOp = And | Or

  function OpText(op: LogicOp): string {
    match op
    case And => "AND"
    case Or => "OR"
  }

  /** `Condition(op, field, cmp, value)`. */
  datatype Condition = Condition(op: LogicOp, field: string, cmp: string, value: Value)

  /** A statement as passed to `cursor.execute(sql, params)`. */
  datatype Statement = Statement(sql: string, params: seq<Value>)

  /** The comparator, upper-cased, is `IS NULL` or `IS NOT NULL`, compared
      one character at a time (see `IsNullTestMeans`). */
  predicate IsNullTest(cmp: string) {
    UpperEquals(cmp, "IS NULL") || UpperEquals(cmp, "IS NOT NULL")
  }

  lemma IsNullTestMeans(cmp: string)
    ensures IsNullTest(cmp) <==> Upper(cmp) == "IS NULL" || Upper(cmp) == "IS NOT NULL"
  {
    UpperEqualsMeans(cmp, "IS NULL");
    UpperEqualsMeans(cmp, "IS NOT NULL");
  }

  /** The text one condition contributes: `field cmp` for a NULL test,
      `field cmp %s` otherwise. */
  function Fragment(c: Condition): string {
    if IsNullTest(c.cmp) then c.field + " " + c.cmp
    else c.field + " " + c.cmp + " %s"
  }

  /** Each condition's operator, a blank, then its fragment. */
  function Prefixed(cs: seq<Condition>): (r: seq<string>)
    ensures |r| == |cs|
    ensures forall k :: 0 <= k < |cs| ==> r[k] == OpText(cs[k].op) + " " + Fragment(cs[k])
  {
    seq(|cs|, k requires 0 <= k < |cs| => OpText(cs[k].op) + " " + Fragment(cs[k]))
  }

  /** The values of the conditions of `cs` that are not NULL tests, in order. */
  function BoundValues(cs: seq<Condition>): seq<Value>
    decreases |cs|
  {
    if cs == [] then []
    else (if IsNullTest(cs[0].cmp) then [] else [cs[0].value]) + BoundValues(cs[1..])
  }

  /** The two global `replace` calls meant to drop the leading operator. */
  function DropLeadingOp(s: string): string {
    ReplaceAll(ReplaceAll(s, "WHERE AND", "WHERE"), "WHERE OR", "WHERE")
  }

  /** The clause `build_where_clause` returns: only the conditions after the
      first are joined, each behind its own operator, and the replacements
      are applied to the whole text. */
  function WhereClause(cs: seq<Condition>): string {
    if cs == [] then "" else DropLeadingOp(" WHERE " + Join(" ", Prefixed(cs[1..])))
  }

  /** The clause the comment beside the join describes: every condition,
      the first one without its operator. */
  function IntendedClause(cs: seq<Condition>): string {
    if cs == [] then "" else " WHERE " + Conjoined(cs)
  }

  /** Every condition's text, each after the first behind its operator. */
  function Conjoined(cs: seq<Condition>): string
    requires cs != []
  {
    Join(" ", [Fragment(cs[0])] + Prefixed(cs[1..]))
  }

  /** The fragment of every condition of `cs`, in order. */
  function Fragments(cs: seq<Condition>): (r: seq<string>)
    ensures |r| == |cs|
  {
    seq(|cs|, k requires 0 <= k < |cs| => Fragment(cs[k]))
  }

  lemma FragmentsAppend(cs: seq<Condition>, c: Condition)
    ensures Fragments(cs + [c]) == Fragments(cs) + [Fragment(c)]
  {
    var l := Fragments(cs + [c]);
    var r := Fragments(cs) + [Fragment(c)];
    forall k | 0 <= k < |l| ensures l[k] == r[k] {
      if k < |cs| {
        assert (cs + [c])[k] == cs[k];
      }
    }
  }

  lemma {:induction false} BoundValuesAppend(cs: seq<Condition>, c: Condition)
    ensures BoundValues(cs + [c]) == BoundValues(cs) + (if IsNullTest(c.cmp) then [] else [c.value])
    decreases |cs|
  {
    if cs == [] {
      assert [] + [c] == [c];
    } else {
      assert (cs + [c])[0] == cs[0];
      assert (cs + [c])[1..] == cs[1..] + [c];
      BoundValuesAppend(cs[1..], c);
    }
  }

  /** `build_where_clause(conditions)`: one pass collects every condition's
      fragment and the bound values, then the fragments after the first are
      joined and the leading operator is replaced away. */
  method BuildWhereClause(conditions: seq<Condition>) returns (clause: string, params: seq<Value>)
    ensures clause == WhereClause(conditions)
    ensures params == BoundValues(conditions)
    ensures conditions == [] ==> clause == "" && params == []
  {
    if conditions == [] {
      return "", [];
    }
    params := [];
    var fragments: seq<string> := [];
    var i := 0;
    while i < |conditions|
      invariant 0 <= i <= |conditions|
      invariant |fragments| == i
      invariant fragments == Fragments(conditions[..i])
      invariant params == BoundValues(conditions[..i])
    {
      var cond := conditions[i];
      BoundValuesAppend(conditions[..i], cond);
      assert conditions[..i + 1] == conditions[..i] + [cond];
      var fragment: string;
      if IsNullTest(cond.cmp) {
        fragment := cond.field + " " + cond.cmp;
      } else {
        fragment := cond.field + " " + cond.cmp + " %s";
        params := params + [cond.value];
      }
      assert fragment == Fragment(cond);
      FragmentsAppend(conditions[..i], cond);
      fragments := fragments + [fragment];
      i := i + 1;
    }
    assert conditions[..i] == conditions;
    var n := |conditions| - 1;
    var pieces := seq(n, k requires 0 <= k < n => OpText(conditions[k + 1].op) + " " + fragments[k + 1]);
    assert pieces == Prefixed(conditions[1..]) by {
      forall k | 0 <= k < n ensures pieces[k] == Prefixed(conditions[1..])[k] {
        assert conditions[1..][k] == conditions[k + 1];
        assert fragments[k + 1] == Fragment(conditions[k + 1]);
      }
    }
    clause := " WHERE " + Join(" ", pieces);
    clause := ReplaceAll(clause, "WHERE AND", "WHERE");
    clause := ReplaceAll(clause, "WHERE OR", "WHERE");
  }

  // ---------------------------------------------------------------------
  // What the clause looks like

  /** No field or comparator text of `cs` contains the word `WHERE`. */
  ghost predicate NoWhereText(cs: seq<Condition>) {
    forall k :: 0 <= k < |cs| ==> !Contains(cs[k].field, "WHERE") && !Contains(cs[k].cmp, "WHERE")
  }

  /** No field or comparator text of `cs` contains a `%`. */
  predicate NoPercentText(cs: seq<Condition>) {
    forall k :: 0 <= k < |cs| ==> '%' !in cs[k].field && '%' !in cs[k].cmp
  }

  /** The case in which the second replacement reaches past the operator it
      is meant to remove: an `AND` before a field starting with `OR`. */
  predicate SecondFieldClash(cs: seq<Condition>) {
    |cs| >= 2 && cs[1].op == And && StartsWith(cs[1].field, "OR")
  }

  lemma JoinCons(sep: string, x: string, rest: seq<string>)
    ensures Join(sep, [x] + rest) == if rest == [] then x else x + sep + Join(sep, rest)
  {
    assert ([x] + rest)[1..] == rest;
  }

  lemma FragmentAvoidsWhere(c: Condition)
    requires !Contains(c.field, "WHERE") && !Contains(c.cmp, "WHERE")
    ensures !Contains(Fragment(c), "WHERE")
    ensures !Contains(OpText(c.op) + " " + Fragment(c), "WHERE")
  {
    var base := c.field + " " + c.cmp;
    NoStraddle(c.field, ' ', c.cmp, "WHERE");
    assert c.field + [' '] + c.cmp == base;
    if !IsNullTest(c.cmp) {
      AbsentLead("%s", "WHERE");
      NoStraddle(base, ' ', "%s", "WHERE");
      assert base + [' '] + "%s" == Fragment(c);
    }
    AbsentLead(OpText(c.op), "WHERE");
    NoStraddle(OpText(c.op), ' ', Fragment(c), "WHERE");
    assert OpText(c.op) + [' '] + Fragment(c) == OpText(c.op) + " " + Fragment(c);
  }

  /** The body of the intended clause contains no `WHERE`. */
  lemma BodyAvoidsWhere(cs: seq<Condition>)
    requires |cs| >= 1 && NoWhereText(cs)
    ensures !Contains(Conjoined(cs), "WHERE")
  {
    var parts := [Fragment(cs[0])] + Prefixed(cs[1..]);
    forall k | 0 <= k < |parts| ensures !Contains(parts[k], "WHERE") {
      PartAvoidsWhere(cs, k);
    }
    JoinAvoids(' ', parts, "WHERE");
  }

  lemma PartAvoidsWhere(cs: seq<Condition>, k: int)
    requires 0 <= k < |cs| && !Contains(cs[k].field, "WHERE") && !Contains(cs[k].cmp, "WHERE")
    ensures !Contains(([Fragment(cs[0])] + Prefixed(cs[1..]))[k], "WHERE")
  {
    FragmentAvoidsWhere(cs[k]);
    if k > 0 {
      assert cs[1..][k - 1] == cs[k];
    }
  }

  /** The first replacement removes an `AND` operator in front of a body
      without `WHERE`. */
  lemma FirstReplacementDropsAnd(t: string)
    requires !Contains(t, "WHERE")
    ensures ReplaceAll(" WHERE AND " + t, "WHERE AND", "WHERE") == " WHERE " + t
  {
    DropsAndShape(t);
    var x := " " + t;
    assert !Contains(x, "WHERE AND") by {
      AbsentCons(' ', t, "WHERE");
      AbsentExtension(x, "WHERE", " AND");
    }
    ReplaceOnce(" ", "WHERE AND", x, "WHERE");
    WhereGlue(" " + t);
  }

  /** The first replacement leaves an `OR` operator in place. */
  lemma FirstReplacementKeepsOr(t: string)
    requires !Contains(t, "WHERE")
    ensures ReplaceAll(" WHERE OR " + t, "WHERE AND", "WHERE") == " WHERE OR " + t
  {
    KeepsOrShape(t);
    AbsentExtension(t, "WHERE", " AND");
    ReplaceNearMiss(" ", "WHERE OR ", t, "WHERE AND", "WHERE");
  }

  /** The second replacement removes an `OR` operator. */
  lemma SecondReplacementDropsOr(t: string)
    requires !Contains(t, "WHERE")
    ensures ReplaceAll(" WHERE OR " + t, "WHERE OR", "WHERE") == " WHERE " + t
  {
    DropsOrShape(t);
    var x := " " + t;
    assert !Contains(x, "WHERE OR") by {
      AbsentCons(' ', t, "WHERE");
      AbsentExtension(x, "WHERE", " OR");
    }
    ReplaceOnce(" ", "WHERE OR", x, "WHERE");
    WhereGlue(" " + t);
  }

  /** With no operator left, the second replacement changes nothing unless
      the body starts with `OR`. */
  lemma SecondReplacementKeepsBody(t: string)
    requires !Contains(t, "WHERE") && !StartsWith(t, "OR")
    ensures ReplaceAll(" WHERE " + t, "WHERE OR", "WHERE") == " WHERE " + t
  {
    KeepsBodyShape(t);
    AbsentExtension(t, "WHERE", " OR");
    ReplaceNearMiss(" ", "WHERE ", t, "WHERE OR", "WHERE");
  }

  /** The text shapes the replacement lemmas need, kept apart from them. */
  lemma DropsAndShape(t: string)
    ensures "WHERE" + " AND" == "WHERE AND"
    ensures " WHERE AND " + t == " " + ("WHERE AND" + (" " + t))
  {
  }

  lemma DropsOrShape(t: string)
    ensures "WHERE" + " OR" == "WHERE OR"
    ensures " WHERE OR " + t == " " + ("WHERE OR" + (" " + t))
  {
  }

  lemma KeepsOrShape(t: string)
    ensures "WHERE" + " AND" == "WHERE AND"
    ensures "WHERE OR "[1..] == "HERE OR "
    ensures !StartsWith("WHERE OR " + t, "WHERE AND")
    ensures " " + ("WHERE OR " + t) == " WHERE OR " + t
  {
    assert ("WHERE OR " + t)[6] == 'O';
  }

  lemma KeepsBodyShape(t: string)
    requires !StartsWith(t, "OR")
    ensures "WHERE" + " OR" == "WHERE OR"
    ensures "WHERE "[1..] == "HERE "
    ensures !StartsWith("WHERE " + t, "WHERE OR")
    ensures " " + ("WHERE " + t) == " WHERE " + t
  {
    var q := "WHERE ";
    if |q + t| >= 8 {
      assert (q + t)[..8][6..8] == t[..2];
    }
  }

  /** If the body starts with `OR`, the second replacement takes those two
      letters for an operator and removes them together with the blank. */
  lemma SecondReplacementEatsOr(t: string)
    requires !Contains(t, "WHERE") && StartsWith(t, "OR")
    ensures ReplaceAll(" WHERE " + t, "WHERE OR", "WHERE") == " WHERE" + t[2..]
  {
    var u := t[2..];
    EatsOrShape(t);
    AbsentSuffix(t, 2, "WHERE");
    AbsentExtension(u, "WHERE", " OR");
    ReplaceOnce(" ", "WHERE OR", u, "WHERE");
    WhereGlue(u);
  }

  lemma EatsOrShape(t: string)
    requires StartsWith(t, "OR")
    ensures " WHERE " + t == " " + ("WHERE OR" + t[2..])
    ensures "WHERE" + " OR" == "WHERE OR"
  {
    assert t == "OR" + t[2..];
  }

  lemma WhereGlue(u: string)
    ensures " " + ("WHERE" + u) == " WHERE" + u
  {
  }

  /** A single condition yields the bare keyword. */
  lemma SingleConditionClause(c: Condition)
    ensures WhereClause([c]) == " WHERE "
  {
    assert [c][1..] == [];
    assert Join(" ", Prefixed([])) == "";
    var raw := " WHERE ";
    assert ReplaceAll(raw, "WHERE AND", "WHERE") == raw;
    assert ReplaceAll(raw, "WHERE OR", "WHERE") == raw;
  }

  /** Joining the prefixed texts of `ds` gives the first operator, a blank
      and the conjoined texts of `ds`. */
  lemma PrefixedJoin(ds: seq<Condition>)
    requires ds != []
    ensures Join(" ", Prefixed(ds)) == OpText(ds[0].op) + " " + Conjoined(ds)
  {
    var rest := Prefixed(ds[1..]);
    assert Prefixed(ds) == [OpText(ds[0].op) + " " + Fragment(ds[0])] + rest;
    JoinAfterHead(" ", OpText(ds[0].op), Fragment(ds[0]), rest);
  }

  /** The conjoined text starts with the first field and a blank. */
  lemma ConjoinedStartsWithField(ds: seq<Condition>)
    requires ds != []
    ensures var f := ds[0].field; var body := Conjoined(ds);
            |f| < |body| && body[..|f|] == f && body[|f|] == ' '
  {
    var rest := Prefixed(ds[1..]);
    JoinCons(" ", Fragment(ds[0]), rest);
    var tail := if rest == [] then "" else " " + Join(" ", rest);
    FragmentStartsWithField(ds[0]);
    HeadOfConcat(ds[0].field, Fragment(ds[0]), tail);
  }

  lemma FragmentStartsWithField(c: Condition)
    ensures |c.field| < |Fragment(c)| && Fragment(c)[..|c.field|] == c.field && Fragment(c)[|c.field|] == ' '
  {
  }

  lemma HeadOfConcat(f: string, a: string, b: string)
    requires |f| < |a| && a[..|f|] == f && a[|f|] == ' '
    ensures |f| < |a + b| && (a + b)[..|f|] == f && (a + b)[|f|] == ' '
  {
    assert (a + b)[..|f|] == a[..|f|];
  }

  /** An `AND` on a field not starting with `OR` leaves a body that does not
      start with `OR`. */
  lemma BodyNotOr(f: string, body: string)
    requires |f| < |body| && body[..|f|] == f && body[|f|] == ' ' && !StartsWith(f, "OR")
    ensures !StartsWith(body, "OR")
  {
    if |body| >= 2 {
      if |f| >= 2 {
        assert body[..2] == f[..2];
      } else {
        assert body[..2][|f|] == ' ';
      }
    }
  }

  /** The clause as written equals the intended clause of the conditions
      after the first: the first condition's text never reaches the SQL.
      This holds unless a field or comparator text contains `WHERE`, or the
      second condition is an `AND` on a field starting with `OR`. */
  lemma WhereClauseDropsFirst(cs: seq<Condition>)
    requires |cs| >= 2 && NoWhereText(cs[1..]) && !SecondFieldClash(cs)
    ensures WhereClause(cs) == IntendedClause(cs[1..])
  {
    var ds := cs[1..];
    var t := Conjoined(ds);
    BodyAvoidsWhere(ds);
    PrefixedJoin(ds);
    var raw := " WHERE " + Join(" ", Prefixed(ds));
    assert WhereClause(cs) == DropLeadingOp(raw);
    assert IntendedClause(ds) == " WHERE " + t;
    if ds[0].op == And {
      assert raw == " WHERE AND " + t;
      FirstReplacementDropsAnd(t);
      ConjoinedStartsWithField(ds);
      assert ds[0] == cs[1];
      BodyNotOr(ds[0].field, t);
      SecondReplacementKeepsBody(t);
    } else {
      assert raw == " WHERE OR " + t;
      FirstReplacementKeepsOr(t);
      SecondReplacementDropsOr(t);
    }
  }

  /** Whatever the texts, a clause for at least one condition starts with
      ` WHERE` (the replacements never reach into the keyword). */
  lemma WhereClausePrefix(cs: seq<Condition>)
    requires cs != []
    ensures StartsWith(WhereClause(cs), " WHERE")
  {
    var j := Join(" ", Prefixed(cs[1..]));
    assert " WHERE " + j == " WHERE" + (" " + j);
    DropLeadingOpKeepsWhere(" " + j);
  }

  lemma DropLeadingOpKeepsWhere(y: string)
    ensures StartsWith(DropLeadingOp(" WHERE" + y), " WHERE")
  {
    ReplaceKeepsWhere(y, "WHERE AND");
    var mid := ReplaceAll(" WHERE" + y, "WHERE AND", "WHERE");
    assert mid == " WHERE" + mid[6..];
    ReplaceKeepsWhere(mid[6..], "WHERE OR");
  }

  lemma ReplaceKeepsWhere(y: string, pat: string)
    requires StartsWith(pat, "WHERE")
    ensures StartsWith(ReplaceAll(" WHERE" + y, pat, "WHERE"), " WHERE")
  {
    var s := "WHERE" + y;
    assert " WHERE" + y == " " + s;
    ReplaceLiteralPrefix(" ", s, pat, "WHERE");
    if |s| >= |pat| && s[..|pat|] != pat {
      assert s[1..] == "HERE" + y;
      ReplaceLiteralPrefix("HERE", y, pat, "WHERE");
      assert ReplaceAll(s, pat, "WHERE") == [s[0]] + ("HERE" + ReplaceAll(y, pat, "WHERE"));
    }
  }

  // ---------------------------------------------------------------------
  // Placeholders against bound values

  lemma FragmentPlaceholders(c: Condition)
    requires '%' !in c.field && '%' !in c.cmp
    ensures Placeholders(Fragment(c)) == if IsNullTest(c.cmp) then 0 else 1
    ensures Placeholders(OpText(c.op) + " " + Fragment(c)) == Placeholders(Fragment(c))
  {
    var base := c.field + " " + c.cmp;
    NoPercentNoPlaceholders(base);
    PlaceholdersConcat(base, " %s");
    NoPercentNoPlaceholders(OpText(c.op) + " ");
    PlaceholdersConcat(OpText(c.op) + " ", Fragment(c));
  }

  lemma {:induction false} PrefixedPlaceholders(cs: seq<Condition>)
    requires NoPercentText(cs)
    ensures PlaceholdersOfAll(Prefixed(cs)) == |BoundValues(cs)|
    decreases |cs|
  {
    if cs != [] {
      assert Prefixed(cs)[1..] == Prefixed(cs[1..]);
      FragmentPlaceholders(cs[0]);
      PrefixedPlaceholders(cs[1..]);
    }
  }

  /** The intended clause holds one `%s` for every bound value. */
  lemma IntendedClauseBindsEveryValue(cs: seq<Condition>)
    requires NoPercentText(cs)
    ensures Placeholders(IntendedClause(cs)) == |BoundValues(cs)|
  {
    if cs != [] {
      var parts := [Fragment(cs[0])] + Prefixed(cs[1..]);
      PlaceholdersJoin(" ", parts);
      assert parts[1..] == Prefixed(cs[1..]);
      FragmentPlaceholders(cs[0]);
      PrefixedPlaceholders(cs[1..]);
      PlaceholdersConcat(" WHERE ", Join(" ", parts));
    }
  }

  /** The two replacements neither create nor destroy a placeholder. */
  lemma DropLeadingOpKeepsPlaceholders(s: string)
    ensures Placeholders(DropLeadingOp(s)) == Placeholders(s)
  {
    assert '%' !in "WHERE AND" && '%' !in "WHERE OR" && '%' !in "WHERE";
    ReplaceKeepsPlaceholders(s, "WHERE AND", "WHERE");
    ReplaceKeepsPlaceholders(ReplaceAll(s, "WHERE AND", "WHERE"), "WHERE OR", "WHERE");
  }

  /** The clause as written holds one `%s` fewer than there are bound values
      when the first condition binds a value: that value has no placeholder.
      This holds for every list whose later conditions hold no `%` text. */
  lemma WhereClausePlaceholders(cs: seq<Condition>)
    requires |cs| >= 1 && NoPercentText(cs[1..])
    ensures Placeholders(WhereClause(cs)) + (if IsNullTest(cs[0].cmp) then 0 else 1) == |BoundValues(cs)|
  {
    assert |BoundValues(cs)| == (if IsNullTest(cs[0].cmp) then 0 else 1) + |BoundValues(cs[1..])| by {
      assert BoundValues(cs) == (if IsNullTest(cs[0].cmp) then [] else [cs[0].value]) + BoundValues(cs[1..]);
    }
    var body := Join(" ", Prefixed(cs[1..]));
    assert Placeholders(body) == |BoundValues(cs[1..])| by {
      PlaceholdersJoin(" ", Prefixed(cs[1..]));
      PrefixedPlaceholders(cs[1..]);
    }
    assert Placeholders(" WHERE " + body) == Placeholders(body) by {
      NoPercentNoPlaceholders(" WHERE ");
      PlaceholdersConcat(" WHERE ", body);
    }
    DropLeadingOpKeepsPlaceholders(" WHERE " + body);
  }

  /** A NULL test is recognised in any letter case, keeps its comparator
      text as written, and binds nothing. */
  lemma NullTestFragment(c: Condition)
    requires IsNullTest(c.cmp)
    ensures Fragment(c) == c.field + " " + c.cmp
    ensures BoundValues([c]) == []
  {
    assert [c][1..] == [];
  }

  lemma NullTestIgnoresCase()
    ensures IsNullTest("is null") && IsNullTest("Is Not Null") && IsNullTest("IS NULL")
  {
    LowerCaseIsNull();
    MixedCaseIsNotNull();
    UpperCaseIsNull();
  }

  lemma UpperCaseIsNull()
    ensures UpperEquals("IS NULL", "IS NULL")
  {
    UpperEqualsByChars("IS NULL", "IS NULL");
  }

  lemma LowerCaseIsNull()
    ensures UpperEquals("is null", "IS NULL")
  {
    UpperEqualsByChars("is null", "IS NULL");
  }

  lemma MixedCaseIsNotNull()
    ensures UpperEquals("Is Not Null", "IS NOT NULL")
  {
    UpperEqualsByChars("Is Not Null", "IS NOT NULL");
  }

  /** Any other operator, including a bare `IS`, binds a value. */
  lemma OtherComparisonsBind()
    ensures !IsNullTest("=") && !IsNullTest("IS")
  {
  }

  // ---------------------------------------------------------------------
  // Findings: concrete inputs

  /** `Condition('AND', 'age', '>', 18)` and `Condition('OR', 'city', '=', 'X')`. */
  const AgeAbove18 := Condition(And, "age", ">", Int(18))
  const CityIsX := Condition(Or, "city", "=", Str("X"))

  lemma AgeCityTexts()
    ensures Fragment(AgeAbove18) == "age > %s" && Fragment(CityIsX) == "city = %s"
    ensures BoundValues([AgeAbove18, CityIsX]) == [Int(18), Str("X")]
    ensures BoundValues([CityIsX]) == [Str("X")]
  {
    assert !IsNullTest(AgeAbove18.cmp) && !IsNullTest(CityIsX.cmp);
    assert [AgeAbove18, CityIsX][1..] == [CityIsX];
    assert [CityIsX][1..] == [];
    assert BoundValues([CityIsX]) == [Str("X")] + BoundValues([]);
  }

  lemma AgeCityAsWritten()
    ensures WhereClause([AgeAbove18, CityIsX]) == " WHERE city = %s"
  {
    var cs := [AgeAbove18, CityIsX];
    AgeCityTexts();
    AbsentLead("city", "WHERE");
    AbsentLead("=", "WHERE");
    assert cs[1..] == [CityIsX];
    assert NoWhereText(cs[1..]);
    WhereClauseDropsFirst(cs);
    SingleConjoined(CityIsX);
  }

  lemma AgeCityIntended()
    ensures IntendedClause([AgeAbove18, CityIsX]) == " WHERE age > %s OR city = %s"
  {
    AgeCityTexts();
    ConjoinedPair(AgeAbove18, CityIsX);
    AgeCityGlue();
  }

  lemma AgeCityGlue()
    ensures " WHERE " + ("age > %s" + " " + "OR" + " " + "city = %s") == " WHERE age > %s OR city = %s"
  {
  }

  /** `[Condition('AND', 'age', '>', 18), Condition('OR', 'city', '=', 'X')]`:
      the clause mentions only `city`, yet both values are bound, while
      the intended clause mentions both. */
  lemma FirstConditionDropped()
    ensures var cs := [Condition(And, "age", ">", Int(18)), Condition(Or, "city", "=", Str("X"))];
            WhereClause(cs) == " WHERE city = %s" &&
            BoundValues(cs) == [Int(18), Str("X")] &&
            IntendedClause(cs) == " WHERE age > %s OR city = %s"
  {
    AgeCityTexts();
    AgeCityAsWritten();
    AgeCityIntended();
  }

  /** Two conditions are conjoined as the first fragment, the second
      operator and the second fragment, blank-separated. */
  lemma ConjoinedPair(c0: Condition, c1: Condition)
    ensures Conjoined([c0, c1]) == Fragment(c0) + " " + OpText(c1.op) + " " + Fragment(c1)
  {
    assert [c0, c1][1..] == [c1];
    assert Prefixed([c1]) == [OpText(c1.op) + " " + Fragment(c1)];
    var second := OpText(c1.op) + " " + Fragment(c1);
    assert [Fragment(c0)] + [second] == [Fragment(c0), second];
    JoinCons(" ", Fragment(c0), [second]);
    JoinCons(" ", second, []);
    assert [second] == [second] + [];
  }

  /** One condition alone is conjoined as its fragment. */
  lemma SingleConjoined(c: Condition)
    ensures Conjoined([c]) == Fragment(c)
  {
    assert [c][1..] == [];
    assert [Fragment(c)] + Prefixed([]) == [Fragment(c)];
  }

  /** Against the as-written clause above, the intended clause binds every
      value: `age > %s OR city = %s` with both parameters. */
  lemma FirstConditionIntendedBinds()
    ensures var cs := [Condition(And, "age", ">", Int(18)), Condition(Or, "city", "=", Str("X"))];
            Placeholders(IntendedClause(cs)) == |BoundValues(cs)| == 2 &&
            Placeholders(WhereClause(cs)) == 1
  {
    var cs := [AgeAbove18, CityIsX];
    AgeCityTexts();
    assert Placeholders(IntendedClause(cs)) == 2 by {
      assert NoPercentText(cs);
      IntendedClauseBindsEveryValue(cs);
    }
    assert Placeholders(WhereClause(cs)) == 1 by {
      assert WhereClause(cs) == IntendedClause([CityIsX]) by {
        AgeCityAsWritten();
        CityClause();
      }
      assert NoPercentText([CityIsX]);
      IntendedClauseBindsEveryValue([CityIsX]);
    }
  }

  lemma CityClause()
    ensures IntendedClause([CityIsX]) == " WHERE city = %s"
  {
    SingleConjoined(CityIsX);
    AgeCityTexts();
  }

  /** `Condition('AND', 'id', '=', 1)` and `Condition('AND', 'ORIGIN', '=', 'x')`. */
  const IdIs1 := Condition(And, "id", "=", Int(1))
  const OriginIsX := Condition(And, "ORIGIN", "=", Str("x"))

  /** Two conditions, the second joined by `AND` and with a fragment that
      starts with `OR`: the `AND` is removed, then that `OR` as well. */
  lemma AndThenOrField(c0: Condition, c1: Condition)
    requires c1.op == And && !Contains(Fragment(c1), "WHERE") && StartsWith(Fragment(c1), "OR")
    ensures WhereClause([c0, c1]) == " WHERE" + Fragment(c1)[2..]
  {
    var t := Fragment(c1);
    assert " WHERE " + Join(" ", Prefixed([c0, c1][1..])) == " WHERE AND " + t by {
      SingleConjoined(c1);
      assert [c0, c1][1..] == [c1];
      PrefixedJoin([c1]);
    }
    FirstReplacementDropsAnd(t);
    SecondReplacementEatsOr(t);
  }

  lemma IdOriginTexts()
    ensures Fragment(IdIs1) == "id = %s" && Fragment(OriginIsX) == "ORIGIN = %s"
  {
  }

  lemma IdOriginAsWritten()
    ensures WhereClause([IdIs1, OriginIsX]) == " WHEREIGIN = %s"
  {
    IdOriginTexts();
    OriginShape();
    AndThenOrField(IdIs1, OriginIsX);
  }

  lemma OriginShape()
    ensures !Contains("ORIGIN = %s", "WHERE") && StartsWith("ORIGIN = %s", "OR")
    ensures " WHERE" + "ORIGIN = %s"[2..] == " WHEREIGIN = %s"
  {
    AbsentLead("ORIGIN = %s", "WHERE");
  }

  lemma IdOriginIntended()
    ensures IntendedClause([IdIs1, OriginIsX]) == " WHERE id = %s AND ORIGIN = %s"
  {
    IdOriginTexts();
    ConjoinedPair(IdIs1, OriginIsX);
    IdOriginGlue();
  }

  lemma IdOriginGlue()
    ensures " WHERE " + ("id = %s" + " " + "AND" + " " + "ORIGIN = %s") == " WHERE id = %s AND ORIGIN = %s"
  {
  }

  /** `[Condition('AND', 'id', '=', 1), Condition('AND', 'ORIGIN', '=', 'x')]`:
      after the `AND` is removed, the second replacement eats the `OR` that
      starts the field name. */
  lemma OrPrefixedFieldMangled()
    ensures var cs := [Condition(And, "id", "=", Int(1)), Condition(And, "ORIGIN", "=", Str("x"))];
            WhereClause(cs) == " WHEREIGIN = %s" &&
            IntendedClause(cs) == " WHERE id = %s AND ORIGIN = %s"
  {
    IdOriginAsWritten();
    IdOriginIntended();
  }

  /** The intended clause keeps every condition's field and comparator
      verbatim, the first one included, and begins with the first field:
      no field name is rewritten, whatever its letters. */
  lemma IntendedKeepsFieldNames(cs: seq<Condition>)
    requires cs != []
    ensures forall k :: 0 <= k < |cs| ==> Contains(IntendedClause(cs), cs[k].field + " " + cs[k].cmp)
    ensures StartsWith(IntendedClause(cs)[|" WHERE "|..], cs[0].field)
  {
    var body := Conjoined(cs);
    var clause := IntendedClause(cs);
    assert OccursAt(clause, body, 7) by {
      assert clause == " WHERE " + body;
    }
    forall k | 0 <= k < |cs| ensures Contains(clause, cs[k].field + " " + cs[k].cmp) {
      ConjoinedHoldsCondition(cs, k);
      var i :| OccursAt(body, cs[k].field + " " + cs[k].cmp, i);
      OccursWithin(clause, body, 7, cs[k].field + " " + cs[k].cmp, i);
    }
    ConjoinedStartsWithField(cs);
    assert clause[|" WHERE "|..] == body;
  }

  /** Every condition's field and comparator occur in the conjoined text. */
  lemma ConjoinedHoldsCondition(cs: seq<Condition>, k: int)
    requires 0 <= k < |cs|
    ensures Contains(Conjoined(cs), cs[k].field + " " + cs[k].cmp)
  {
    var parts := [Fragment(cs[0])] + Prefixed(cs[1..]);
    var w := cs[k].field + " " + cs[k].cmp;
    JoinHasPart(" ", parts, k);
    var i :| OccursAt(Conjoined(cs), parts[k], i);
    var j := if k == 0 then 0 else |OpText(cs[k].op)| + 1;
    PartHoldsCondition(cs, k);
    OccursWithin(Conjoined(cs), parts[k], i, w, j);
  }

  /** The `k`-th piece of the conjoined text holds the `k`-th field and
      comparator, behind the operator for every piece after the first. */
  lemma PartHoldsCondition(cs: seq<Condition>, k: int)
    requires 0 <= k < |cs|
    ensures OccursAt(([Fragment(cs[0])] + Prefixed(cs[1..]))[k], cs[k].field + " " + cs[k].cmp,
                     if k == 0 then 0 else |OpText(cs[k].op)| + 1)
  {
    var w := cs[k].field + " " + cs[k].cmp;
    FragmentHoldsCondition(cs[k]);
    if k > 0 {
      assert cs[1..][k - 1] == cs[k];
      var lead := OpText(cs[k].op) + " ";
      assert ([Fragment(cs[0])] + Prefixed(cs[1..]))[k] == lead + Fragment(cs[k]);
      OccursWithin(lead + Fragment(cs[k]), Fragment(cs[k]), |lead|, w, 0);
    }
  }

  lemma FragmentHoldsCondition(c: Condition)
    ensures OccursAt(Fragment(c), c.field + " " + c.cmp, 0)
  {
  }

  // ---------------------------------------------------------------------
  // insert, insert_rows, update, select

  /** A dict as its `(key, value)` items in iteration order. */
  type Items = seq<(string, Value)>

  function Keys(data: Items): (r: seq<string>)
    ensures |r| == |data| && forall k :: 0 <= k < |data| ==> r[k] == data[k].0
  {
    seq(|data|, k requires 0 <= k < |data| => data[k].0)
  }

  function ItemValues(data: Items): (r: seq<Value>)
    ensures |r| == |data| && forall k :: 0 <= k < |data| ==> r[k] == data[k].1
  {
    seq(|data|, k requires 0 <= k < |data| => data[k].1)
  }

  /** No table name or key text holds a `%`. */
  predicate PlainNames(table: string, data: Items) {
    '%' !in table && forall k :: 0 <= k < |data| ==> '%' !in data[k].0
  }

  /** `insert(con, table_name, data)`: the statement it executes. */
  function Insert(table: string, data: Items): Statement {
    Statement("INSERT INTO " + table + " (" + Join(", ", Keys(data)) + ") VALUES ("
              + Join(", ", Repeat("%s", |data|)) + ")",
              ItemValues(data))
  }

  lemma {:induction false} PlaceholderListCount(n: nat)
    ensures Placeholders(Join(", ", Repeat("%s", n))) == n
  {
    PlaceholdersJoin(", ", Repeat("%s", n));
    PlaceholdersOfRepeat(n);
  }

  lemma {:induction false} PlaceholdersOfRepeat(n: nat)
    ensures PlaceholdersOfAll(Repeat("%s", n)) == n
    decreases n
  {
    if n > 0 {
      assert Repeat("%s", n)[1..] == Repeat("%s", n - 1);
      PlaceholdersOfRepeat(n - 1);
    }
  }

  /** The insert statement has exactly one `%s` per dict item, and binds the
      dict values in key order: placeholders and parameters line up, as long
      as the table name and keys (pasted in as they are) hold no `%`. */
  lemma InsertBindsEveryValue(table: string, data: Items)
    requires PlainNames(table, data)
    ensures Placeholders(Insert(table, data).sql) == |Insert(table, data).params| == |data|
    ensures forall k :: 0 <= k < |data| ==> Insert(table, data).params[k] == data[k].1
  {
    var keys := Join(", ", Keys(data));
    var marks := Join(", ", Repeat("%s", |data|));
    JoinLacks(", ", Keys(data), '%');
    var head := "INSERT INTO " + table + " (" + keys + ") VALUES (";
    assert '%' !in head;
    NoPercentNoPlaceholders(head);
    PlaceholderListCount(|data|);
    PlaceholdersConcat(head, marks);
    assert |marks| > 0 ==> marks[|marks| - 1] != '%' by {
      MarksEnd(|data|);
    }
    PlaceholdersConcat(head + marks, ")");
    assert Insert(table, data).sql == (head + marks) + ")";
  }

  lemma {:induction false} MarksEnd(n: nat)
    ensures var m := Join(", ", Repeat("%s", n)); |m| > 0 ==> m[|m| - 1] == 's'
    decreases n
  {
    if n > 1 {
      assert Repeat("%s", n)[1..] == Repeat("%s", n - 1);
      MarksEnd(n - 1);
    }
  }

  /** `insert_rows(con, table_name, rows)`: one insert per row, in list order. */
  method InsertRows(table: string, rows: seq<Items>) returns (executed: seq<Statement>)
    ensures |executed| == |rows|
    ensures forall k :: 0 <= k < |rows| ==> executed[k] == Insert(table, rows[k])
  {
    executed := [];
    for i := 0 to |rows|
      invariant |executed| == i
      invariant forall k :: 0 <= k < i ==> executed[k] == Insert(table, rows[k])
    {
      executed := executed + [Insert(table, rows[i])];
    }
  }

  /** `f"{key} = %s"` for each key. */
  function Assignments(keys: seq<string>): (r: seq<string>)
    ensures |r| == |keys| && forall k :: 0 <= k < |keys| ==> r[k] == keys[k] + " = %s"
  {
    seq(|keys|, k requires 0 <= k < |keys| => keys[k] + " = %s")
  }

  /** `update(con, table_name, data, condition)`: the statement it executes.
      The condition text is pasted in verbatim. */
  function Update(table: string, data: Items, condition: string): Statement {
    Statement("UPDATE " + table + " SET " + Join(", ", Assignments(Keys(data))) + " WHERE " + condition,
              ItemValues(data))
  }

  lemma {:induction false} AssignmentsPlaceholders(keys: seq<string>)
    requires forall k :: 0 <= k < |keys| ==> '%' !in keys[k]
    ensures PlaceholdersOfAll(Assignments(keys)) == |keys|
    decreases |keys|
  {
    if keys != [] {
      assert Assignments(keys)[1..] == Assignments(keys[1..]);
      NoPercentNoPlaceholders(keys[0]);
      PlaceholdersConcat(keys[0], " = %s");
      AssignmentsPlaceholders(keys[1..]);
    }
  }

  lemma {:induction false} AssignmentsEnd(keys: seq<string>)
    ensures var a := Join(", ", Assignments(keys)); |a| > 0 ==> a[|a| - 1] == 's'
    decreases |keys|
  {
    if |keys| > 1 {
      assert Assignments(keys)[1..] == Assignments(keys[1..]);
      AssignmentsEnd(keys[1..]);
    }
  }

  /** The update statement binds the dict values in key order, one `%s`
      each, ends with the condition text verbatim, and any placeholder
      inside that text has no parameter of its own. */
  lemma UpdateBindsSetValues(table: string, data: Items, condition: string)
    requires PlainNames(table, data)
    ensures var st := Update(table, data, condition);
            Placeholders(st.sql) == |st.params| + Placeholders(condition) &&
            |st.params| == |data| &&
            (forall k :: 0 <= k < |data| ==> st.params[k] == data[k].1) &&
            st.sql[|st.sql| - |condition|..] == condition
  {
    var st := Update(table, data, condition);
    var head := "UPDATE " + table + " SET ";
    var sets := Join(", ", Assignments(Keys(data)));
    var body := head + sets + " WHERE ";
    assert st.sql == body + condition;
    assert Placeholders(body) == |data| by {
      assert Placeholders(head) == 0 by {
        assert '%' !in head;
        NoPercentNoPlaceholders(head);
      }
      assert Placeholders(sets) == |data| by {
        PlaceholdersJoin(", ", Assignments(Keys(data)));
        AssignmentsPlaceholders(Keys(data));
      }
      PlaceholdersConcat(head, sets);
      AssignmentsEnd(Keys(data));
      PlaceholdersConcat(head + sets, " WHERE ");
      NoPercentNoPlaceholders(" WHERE ");
    }
    PlaceholdersConcat(body, condition);
    assert st.sql[|body|..] == condition;
  }

  /** `select(con, table_name, condition_groups, field_names)`: the query
      it executes (through a dictionary cursor); `None` arguments take the
      defaults `['*']` and `[]`. */
  method Select(table: string, conditionGroups: Option<seq<Condition>>, fieldNames: Option<seq<string>>)
    returns (query: Statement)
    ensures conditionGroups.None? && fieldNames.None? ==> query == Statement("SELECT * FROM " + table, [])
    ensures query.sql == "SELECT " + Join(", ", fieldNames.GetOr(["*"])) + " FROM " + table
                         + WhereClause(conditionGroups.GetOr([]))
    ensures query.params == BoundValues(conditionGroups.GetOr([]))
  {
    var names := if fieldNames.None? then ["*"] else fieldNames.value;
    var groups := if conditionGroups.None? then [] else conditionGroups.value;
    var fields := Join(", ", names);
    var whereClause, params := BuildWhereClause(groups);
    query := Statement("SELECT " + fields + " FROM " + table + whereClause, params);
  }

  /** Identifiers passed through `sanitize_identifier` cannot break the
      placeholder count: they hold no `%`. (The builders above do not call
      it.) */
  lemma SanitizedNamesArePlain(table: string, data: Items)
    requires Database.SanitizeIdentifier(table) == table
    requires forall k :: 0 <= k < |data| ==> Database.SanitizeIdentifier(data[k].0) == data[k].0
    ensures PlainNames(table, data)
  {
    forall k | 0 <= k < |data| ensures '%' !in data[k].0 {
      NoPercentInSanitized(data[k].0);
    }
    NoPercentInSanitized(table);
  }

  lemma NoPercentInSanitized(s: string)
    ensures '%' !in Database.SanitizeIdentifier(s)
  {
    var r := Database.SanitizeIdentifier(s);
    forall k | 0 <= k < |r| ensures r[k] != '%' {
      assert Database.Allowed(r[k]);
    }
  }
}
