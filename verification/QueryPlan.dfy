/**
 The query a listing request is turned into: a key condition, a filter and tables of
 placeholders, built step by step, and what the store makes of them row by row.
 */
module QueryPlan {
  import opened Base
  import opened Text

  /** A stored row as its string attributes; absent attributes have no key. */
  type Attributes = map<string, string>

  /** One comparison between an attribute, or the alias of one, and placeholders. */
  datatype Clause =
    | Equal(name: string, value: string)
    | AtLeastOf(name: string, value: string)
    | AtMostOf(name: string, value: string)
    | Between(name: string, low: string, high: string)

  /** Clauses are joined by AND; without names attached, no alias has a meaning. */
  datatype Plan = Plan(index: Option<string>, keyCondition: seq<Clause>, filter: seq<Clause>,
                       names: Option<map<string, string>>, values: map<string, string>)

  // ---------------------------------------------------------------- what a plan means

  /** Attribute names that may appear in an expression by alias only. */
  const RESERVED := {"timestamp", "level", "status"}

  predicate IsAlias(name: string) {
    name != "" && name[0] == '#'
  }

  function AttributeOf(p: Plan, name: string): Option<string> {
    if IsAlias(name) then if p.names.Some? then Lookup(p.names.value, name) else None
    else if name in RESERVED then None
    else Some(name)
  }

  function Placeholders(cl: Clause): seq<string> {
    match cl
    case Between(_, low, high) => [low, high]
    case _ => [cl.value]
  }

  predicate Defined(p: Plan, cl: Clause) {
    AttributeOf(p, cl.name).Some? && forall v | v in Placeholders(cl) :: v in p.values
  }

  /** Whether a clause holds of a row; a comparison with an absent attribute does not. */
  predicate Holds(p: Plan, cl: Clause, row: Attributes)
    requires Defined(p, cl)
  {
    var a := AttributeOf(p, cl.name).value;
    assert cl.Between? ==> cl.low in Placeholders(cl) && cl.high in Placeholders(cl);
    assert !cl.Between? ==> cl.value in Placeholders(cl);
    a in row &&
    match cl
    case Equal(_, v) => row[a] == p.values[v]
    case AtLeastOf(_, v) => AtMost(p.values[v], row[a])
    case AtMostOf(_, v) => AtMost(row[a], p.values[v])
    case Between(_, low, high) => AtMost(p.values[low], row[a]) && AtMost(row[a], p.values[high])
  }

  function Clauses(p: Plan): seq<Clause> {
    p.keyCondition + p.filter
  }

  /** The bounds of a range are not reversed. */
  predicate InOrder(p: Plan, cl: Clause)
    requires Defined(p, cl)
  {
    assert cl.Between? ==> cl.low in Placeholders(cl) && cl.high in Placeholders(cl);
    cl.Between? ==> AtMost(p.values[cl.low], p.values[cl.high])
  }

  /**
   The store evaluates no expressions that use what is not defined, define what is not used,
   or ask for a range whose upper bound is below its lower one.
   */
  predicate Evaluable(p: Plan) {
    && (forall cl | cl in Clauses(p) :: Defined(p, cl) && InOrder(p, cl))
    && (forall v | v in p.values :: exists cl | cl in Clauses(p) :: v in Placeholders(cl))
    && (p.names.Some? ==> forall n | n in p.names.value :: exists cl | cl in Clauses(p) :: n == cl.name)
  }

  // ---------------------------------------------------------------- what the store keeps rows by

  /** The attribute that a query selects one value of, and the one that rows are ordered by. */
  datatype Schema = Schema(hash: string, range: string)

  /** The events table by itself, and its index by time. */
  function SchemaOf(index: Option<string>): Option<Schema> {
    match index
    case None => Some(Schema("project_id", "event_id"))
    case Some(name) => if name == "TimestampIndex" then Some(Schema("project_id", "timestamp")) else None
  }

  /** The clause fixes the one attribute or bounds the other. */
  predicate OnKey(p: Plan, schema: Schema, cl: Clause) {
    AttributeOf(p, cl.name) == Some(if cl.Equal? then schema.hash else schema.range)
  }

  /** The key condition fixes the hash attribute and may bound the range attribute; the filter uses neither. */
  predicate FitsKeys(p: Plan) {
    match SchemaOf(p.index)
    case None => false
    case Some(schema) =>
      && 1 <= |p.keyCondition| <= 2 && p.keyCondition[0].Equal?
      && (|p.keyCondition| == 2 ==> !p.keyCondition[1].Equal?)
      && (forall cl | cl in p.keyCondition :: OnKey(p, schema, cl))
      && forall cl | cl in p.filter :: AttributeOf(p, cl.name) !in {Some(schema.hash), Some(schema.range)}
  }

  /** The store answers a query of which it can evaluate the expressions and find the keys. */
  predicate Accepted(p: Plan) {
    Evaluable(p) && FitsKeys(p)
  }

  predicate Selects(p: Plan, row: Attributes)
    requires Evaluable(p)
  {
    forall cl | cl in Clauses(p) :: Holds(p, cl, row)
  }

  // ---------------------------------------------------------------- what was asked for

  /** The parameters of a listing; empty ones are not given. */
  datatype Listing = Listing(project: string, from: string, to: string, level: string, itemType: string)

  predicate HasValue(row: Attributes, a: string, v: string) {
    a in row && row[a] == v
  }

  /** The row is of the project, within the bounds, of the type and of the level asked for. */
  predicate Matches(q: Listing, row: Attributes) {
    && HasValue(row, "project_id", q.project)
    && (q.from != "" ==> "timestamp" in row && AtMost(q.from, row["timestamp"]))
    && (q.to != "" ==> "timestamp" in row && AtMost(row["timestamp"], q.to))
    && (q.itemType != "all" ==> HasValue(row, "item_type", if q.itemType == "" then "event" else q.itemType))
    && (q.level != "" ==> HasValue(row, "level", q.level))
  }

  predicate Bounded(q: Listing) {
    q.from != "" || q.to != ""
  }

  /** The listings whose alias table is built and not attached: a time bound and no filter at all. */
  predicate Unattached(q: Listing) {
    Bounded(q) && q.itemType == "all" && q.level == ""
  }

  /** The listings that ask for a range which ends before it begins. */
  predicate Reversed(q: Listing) {
    q.from != "" && q.to != "" && !AtMost(q.from, q.to)
  }

  predicate Refused(q: Listing) {
    Unattached(q) || Reversed(q)
  }

  // ---------------------------------------------------------------- the plan

  function TimeClauses(q: Listing): seq<Clause> {
    if q.from != "" && q.to != "" then [Between("#ts", ":from", ":to")]
    else if q.from != "" then [AtLeastOf("#ts", ":from")]
    else if q.to != "" then [AtMostOf("#ts", ":to")]
    else []
  }

  function TypeClauses(q: Listing): seq<Clause> {
    if q.itemType != "all" then [Equal("#it", ":it")] else []
  }

  function LevelClauses(q: Listing): seq<Clause> {
    if q.level != "" then [Equal("#lvl", ":lvl")] else []
  }

  function TypeOf(q: Listing): string {
    if q.itemType == "" then "event" else q.itemType
  }

  function Given(condition: bool, k: string, v: string): map<string, string> {
    if condition then map[k := v] else map[]
  }

  function NamesOf(q: Listing): map<string, string> {
    Given(Bounded(q), "#ts", "timestamp") + Given(q.itemType != "all", "#it", "item_type")
    + Given(q.level != "", "#lvl", "level")
  }

  function ValuesOf(q: Listing): map<string, string> {
    map[":pid" := q.project] + Given(q.from != "", ":from", q.from) + Given(q.to != "", ":to", q.to)
    + Given(q.itemType != "all", ":it", TypeOf(q)) + Given(q.level != "", ":lvl", q.level)
  }

  function PlanOf(q: Listing): Plan {
    var filter := TypeClauses(q) + LevelClauses(q);
    Plan(if Bounded(q) then Some("TimestampIndex") else None,
         [Equal("project_id", ":pid")] + TimeClauses(q),
         filter,
         if filter != [] then Some(NamesOf(q)) else None,
         ValuesOf(q))
  }

  /** The names and values of the time bounds, as they are in the tables before the filters. */
  function TimeValues(q: Listing): map<string, string> {
    map[":pid" := q.project] + Given(q.from != "", ":from", q.from) + Given(q.to != "", ":to", q.to)
  }

  /** The key condition: the project, and the time bounds that are given. */
  method BuildKeyCondition(q: Listing)
    returns (keyCond: seq<Clause>, exprVals: map<string, string>, attrNames: map<string, string>)
    ensures keyCond == [Equal("project_id", ":pid")] + TimeClauses(q)
    ensures exprVals == TimeValues(q)
    ensures attrNames == Given(Bounded(q), "#ts", "timestamp")
  {
    keyCond := [Equal("project_id", ":pid")];
    exprVals := map[":pid" := q.project];
    attrNames := map[];
    if q.from != "" || q.to != "" {
      attrNames := attrNames["#ts" := "timestamp"];
      if q.from != "" && q.to != "" {
        keyCond := keyCond + [Between("#ts", ":from", ":to")];
        exprVals := exprVals[":from" := q.from];
        exprVals := exprVals[":to" := q.to];
      } else {
        if q.from != "" {
          keyCond := keyCond + [AtLeastOf("#ts", ":from")];
          exprVals := exprVals[":from" := q.from];
        }
        if q.to != "" {
          keyCond := keyCond + [AtMostOf("#ts", ":to")];
          exprVals := exprVals[":to" := q.to];
        }
      }
    }
  }

  /** One filter, entered into the same tables. */
  method AddFilter(filters: seq<Clause>, exprVals: map<string, string>, attrNames: map<string, string>,
                   condition: bool, alias: string, attribute: string, placeholder: string, value: string)
    returns (fs: seq<Clause>, vals: map<string, string>, names: map<string, string>)
    ensures fs == if condition then filters + [Equal(alias, placeholder)] else filters
    ensures vals == exprVals + Given(condition, placeholder, value)
    ensures names == attrNames + Given(condition, alias, attribute)
  {
    fs, vals, names := filters, exprVals, attrNames;
    if condition {
      fs := fs + [Equal(alias, placeholder)];
      names := names[alias := attribute];
      vals := vals[placeholder := value];
    }
  }

  /** The plan as the handler builds it. */
  method BuildPlan(q: Listing) returns (p: Plan)
    ensures p == PlanOf(q)
  {
    var keyCond, exprVals, attrNames := BuildKeyCondition(q);
    p := Plan(if q.from != "" || q.to != "" then Some("TimestampIndex") else None, keyCond, [], None, map[]);
    var kind := if q.itemType == "" then "event" else q.itemType;
    var filters, vals, names := AddFilter([], exprVals, attrNames, kind != "all", "#it", "item_type", ":it", kind);
    filters, vals, names := AddFilter(filters, vals, names, q.level != "", "#lvl", "level", ":lvl", q.level);
    assert filters == TypeClauses(q) + LevelClauses(q);
    p := p.(values := vals);
    if |filters| > 0 {
      p := p.(filter := filters, names := Some(names));
    }
  }

  // ---------------------------------------------------------------- main results

  lemma ClausesOf(q: Listing, cl: Clause)
    ensures cl in Clauses(PlanOf(q)) <==>
            || cl == Equal("project_id", ":pid")
            || (cl == Between("#ts", ":from", ":to") && q.from != "" && q.to != "")
            || (cl == AtLeastOf("#ts", ":from") && q.from != "" && q.to == "")
            || (cl == AtMostOf("#ts", ":to") && q.from == "" && q.to != "")
            || (cl == Equal("#it", ":it") && q.itemType != "all")
            || (cl == Equal("#lvl", ":lvl") && q.level != "")
  {}

  lemma NamesAttached(q: Listing)
    ensures PlanOf(q).names.Some? <==> q.itemType != "all" || q.level != ""
  {}

  lemma ValuesGiven(q: Listing, v: string)
    ensures v in ValuesOf(q) <==>
            || v == ":pid" || (v == ":from" && q.from != "") || (v == ":to" && q.to != "")
            || (v == ":it" && q.itemType != "all") || (v == ":lvl" && q.level != "")
  {}

  lemma PlaceholdersUsed(q: Listing)
    ensures forall v | v in ValuesOf(q) :: exists cl | cl in Clauses(PlanOf(q)) :: v in Placeholders(cl)
  {
    forall v | v in ValuesOf(q)
      ensures exists cl | cl in Clauses(PlanOf(q)) :: v in Placeholders(cl)
    {
      ValuesGiven(q, v);
      var cl := if v == ":pid" then Equal("project_id", ":pid")
      else if v == ":it" then Equal("#it", ":it")
      else if v == ":lvl" then Equal("#lvl", ":lvl")
      else TimeClauses(q)[0];
      ClausesOf(q, cl);
      assert cl in Clauses(PlanOf(q)) && v in Placeholders(cl);
    }
  }

  lemma NamesUsed(q: Listing)
    ensures forall n | n in NamesOf(q) :: exists cl | cl in Clauses(PlanOf(q)) :: n == cl.name
  {
    forall n | n in NamesOf(q)
      ensures exists cl | cl in Clauses(PlanOf(q)) :: n == cl.name
    {
      var cl := if n == "#it" then Equal("#it", ":it")
      else if n == "#lvl" then Equal("#lvl", ":lvl")
      else TimeClauses(q)[0];
      ClausesOf(q, cl);
      assert cl in Clauses(PlanOf(q)) && n == cl.name;
    }
  }

  lemma PlaceholderValues(q: Listing)
    ensures var p := PlanOf(q);
            && Lookup(p.values, ":pid") == Some(q.project)
            && (q.from != "" ==> Lookup(p.values, ":from") == Some(q.from))
            && (q.to != "" ==> Lookup(p.values, ":to") == Some(q.to))
            && (q.itemType != "all" ==> Lookup(p.values, ":it") == Some(TypeOf(q)))
            && (q.level != "" ==> Lookup(p.values, ":lvl") == Some(q.level))
  {}

  lemma NameTable(q: Listing)
    ensures var n := NamesOf(q);
            && (Bounded(q) ==> Lookup(n, "#ts") == Some("timestamp"))
            && (q.itemType != "all" ==> Lookup(n, "#it") == Some("item_type"))
            && (q.level != "" ==> Lookup(n, "#lvl") == Some("level"))
  {}

  lemma AliasedNames(q: Listing)
    requires !Unattached(q)
    ensures var p := PlanOf(q);
            && AttributeOf(p, "project_id") == Some("project_id")
            && (Bounded(q) ==> AttributeOf(p, "#ts") == Some("timestamp"))
            && (q.itemType != "all" ==> AttributeOf(p, "#it") == Some("item_type"))
            && (q.level != "" ==> AttributeOf(p, "#lvl") == Some("level"))
  {
    NamesAttached(q);
    NameTable(q);
  }

  lemma ClauseDefined(q: Listing, cl: Clause)
    requires !Unattached(q) && cl in Clauses(PlanOf(q))
    ensures Defined(PlanOf(q), cl)
  {
    ClausesOf(q, cl);
    PlaceholderValues(q);
    AliasedNames(q);
  }

  lemma ClauseInOrder(q: Listing, cl: Clause)
    requires cl in Clauses(PlanOf(q)) && Defined(PlanOf(q), cl)
    ensures cl.Between? ==> (InOrder(PlanOf(q), cl) <==> !Reversed(q))
    ensures !cl.Between? ==> InOrder(PlanOf(q), cl)
  {
    ClausesOf(q, cl);
    PlaceholderValues(q);
  }

  lemma KeysFit(q: Listing)
    requires !Unattached(q)
    ensures FitsKeys(PlanOf(q))
  {
    var p := PlanOf(q);
    AliasedNames(q);
    forall cl | cl in p.keyCondition
      ensures OnKey(p, SchemaOf(p.index).value, cl)
    {
      assert cl == Equal("project_id", ":pid") || cl in TimeClauses(q);
    }
    forall cl | cl in p.filter
      ensures AttributeOf(p, cl.name) == Some("item_type") || AttributeOf(p, cl.name) == Some("level")
    {
      assert cl in TypeClauses(q) || cl in LevelClauses(q);
    }
  }

  lemma UnattachedRefused(q: Listing)
    requires Unattached(q)
    ensures !Accepted(PlanOf(q))
  {
    var p, cl := PlanOf(q), TimeClauses(q)[0];
    assert p.keyCondition[1] == cl && cl in Clauses(p);
    NamesAttached(q);
    assert !Defined(p, cl);
  }

  lemma ReversedRefused(q: Listing)
    requires Reversed(q)
    ensures !Accepted(PlanOf(q))
  {
    var p, cl := PlanOf(q), Between("#ts", ":from", ":to");
    ClausesOf(q, cl);
    if Accepted(p) {
      ClauseInOrder(q, cl);
    }
  }

  /** The store refuses exactly the plans of unattached listings and of reversed ones. */
  lemma AcceptedIff(q: Listing)
    ensures Accepted(PlanOf(q)) <==> !Refused(q)
  {
    if Unattached(q) {
      UnattachedRefused(q);
    } else if Reversed(q) {
      ReversedRefused(q);
    } else {
      var p := PlanOf(q);
      forall cl | cl in Clauses(p)
        ensures Defined(p, cl) && InOrder(p, cl)
      {
        ClauseDefined(q, cl);
        ClauseInOrder(q, cl);
      }
      NamesAttached(q);
      PlaceholdersUsed(q);
      NamesUsed(q);
      KeysFit(q);
    }
  }

  /** What one clause of a listing's plan asks of a row. */
  predicate Asks(q: Listing, cl: Clause, row: Attributes) {
    match cl
    case Equal(n, _) =>
      if n == "project_id" then HasValue(row, "project_id", q.project)
      else if n == "#it" then HasValue(row, "item_type", TypeOf(q))
      else HasValue(row, "level", q.level)
    case AtLeastOf(_, _) => "timestamp" in row && AtMost(q.from, row["timestamp"])
    case AtMostOf(_, _) => "timestamp" in row && AtMost(row["timestamp"], q.to)
    case Between(_, _, _) =>
      "timestamp" in row && AtMost(q.from, row["timestamp"]) && AtMost(row["timestamp"], q.to)
  }

  lemma AllAskedIsMatch(q: Listing, row: Attributes)
    requires forall cl | cl in Clauses(PlanOf(q)) :: Asks(q, cl, row)
    ensures Matches(q, row)
  {
    ClausesOf(q, Equal("project_id", ":pid"));
    ClausesOf(q, Between("#ts", ":from", ":to"));
    ClausesOf(q, AtLeastOf("#ts", ":from"));
    ClausesOf(q, AtMostOf("#ts", ":to"));
    ClausesOf(q, Equal("#it", ":it"));
    ClausesOf(q, Equal("#lvl", ":lvl"));
  }

  lemma MatchAsksAll(q: Listing, row: Attributes, cl: Clause)
    requires Matches(q, row) && cl in Clauses(PlanOf(q))
    ensures Asks(q, cl, row)
  {
    ClausesOf(q, cl);
  }

  lemma HoldsAsks(q: Listing, cl: Clause, row: Attributes)
    requires !Unattached(q) && cl in Clauses(PlanOf(q)) && Defined(PlanOf(q), cl)
    ensures Holds(PlanOf(q), cl, row) <==> Asks(q, cl, row)
  {
    ClausesOf(q, cl);
    PlaceholderValues(q);
    AliasedNames(q);
  }

  /** What a plan selects is what was asked for. */
  lemma SelectsIff(q: Listing, row: Attributes)
    requires !Refused(q)
    ensures Accepted(PlanOf(q))
    ensures Selects(PlanOf(q), row) <==> Matches(q, row)
  {
    AcceptedIff(q);
    var p := PlanOf(q);
    forall cl | cl in Clauses(p)
      ensures Holds(p, cl, row) <==> Asks(q, cl, row)
      ensures Matches(q, row) ==> Asks(q, cl, row)
    {
      HoldsAsks(q, cl, row);
      if Matches(q, row) {
        MatchAsksAll(q, row, cl);
      }
    }
    if Selects(p, row) {
      AllAskedIsMatch(q, row);
    }
  }

  // ---------------------------------------------------------------- the processor's scan

  /** The filter that the processor scans with, with the name it gives to the status attribute. */
  function ScanPlan(status: string, names: Option<map<string, string>>): Plan {
    Plan(None, [], [Equal("item_type", ":it"), Equal(status, ":st")], names, map[":it" := "event", ":st" := "received"])
  }

  /** Three attributes may only be named by an alias. */
  lemma AliasesAreNeeded(p: Plan, cl: Clause)
    requires cl in Clauses(p) && (cl.name == "timestamp" || cl.name == "level" || cl.name == "status")
    ensures !Evaluable(p)
  {
    assert !Defined(p, cl);
  }

  /** As it is written, it names a reserved word, and the store refuses it. */
  lemma ScanIsRefused()
    ensures !Evaluable(ScanPlan("status", None))
  {
    var p := ScanPlan("status", None);
    assert Clauses(p)[1] == Equal("status", ":st") && Clauses(p)[1] in Clauses(p);
    AliasesAreNeeded(p, Equal("status", ":st"));
  }

  /** The same with an alias, as the processor's update has it. */
  function AliasedScan(): Plan {
    ScanPlan("#st", Some(map["#st" := "status"]))
  }

  lemma AliasedScanClauses(cl: Clause)
    ensures cl in Clauses(AliasedScan()) <==> cl == Equal("item_type", ":it") || cl == Equal("#st", ":st")
  {
    assert Clauses(AliasedScan()) == [Equal("item_type", ":it"), Equal("#st", ":st")];
  }

  lemma AliasedScanHolds(row: Attributes)
    ensures var p := AliasedScan();
            && Defined(p, Equal("item_type", ":it")) && Defined(p, Equal("#st", ":st"))
            && (Holds(p, Equal("item_type", ":it"), row) <==> HasValue(row, "item_type", "event"))
            && (Holds(p, Equal("#st", ":st"), row) <==> HasValue(row, "status", "received"))
  {}

  lemma AliasedScanAccepted()
    ensures Evaluable(AliasedScan())
  {
    var p, it, st := AliasedScan(), Equal("item_type", ":it"), Equal("#st", ":st");
    AliasedScanClauses(it);
    AliasedScanClauses(st);
    forall cl | cl in Clauses(p)
      ensures Defined(p, cl)
    {
      AliasedScanClauses(cl);
      AliasedScanHolds(map[]);
    }
    assert ":it" in Placeholders(it) && ":st" in Placeholders(st);
  }

  lemma SelectsBoth(p: Plan, a: Clause, b: Clause, row: Attributes)
    requires Evaluable(p) && a in Clauses(p) && b in Clauses(p)
    requires forall cl | cl in Clauses(p) :: cl == a || cl == b
    ensures Selects(p, row) <==> Holds(p, a, row) && Holds(p, b, row)
  {}

  lemma AliasedScanHasTwo()
    ensures Equal("item_type", ":it") in Clauses(AliasedScan()) && Equal("#st", ":st") in Clauses(AliasedScan())
    ensures forall cl | cl in Clauses(AliasedScan()) :: cl == Equal("item_type", ":it") || cl == Equal("#st", ":st")
  {
    assert Clauses(AliasedScan()) == [Equal("item_type", ":it"), Equal("#st", ":st")];
  }

  /** It would select the event rows that are not grouped yet. */
  lemma AliasedScanSelects(row: Attributes)
    ensures Evaluable(AliasedScan())
    ensures Selects(AliasedScan(), row) <==> HasValue(row, "item_type", "event") && HasValue(row, "status", "received")
  {
    AliasedScanAccepted();
    AliasedScanHolds(row);
    AliasedScanHasTwo();
    SelectsBoth(AliasedScan(), Equal("item_type", ":it"), Equal("#st", ":st"), row);
  }
}
