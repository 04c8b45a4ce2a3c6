/**
 * Hiding archived rows from reads by rewriting the query.  What a `where` clause means is left to
 * the database as far as possible: results hold for every meaning in which an object is the
 * conjunction of its entries, AND, OR and NOT depend on nothing but the truth of their operands,
 * and an entry for another column does not look at `archivedAt`.
 */
module Archive {
  import opened Wrappers

  /** A JavaScript value as it occurs in query arguments. */
  datatype Value =
    | Undefined
    | Null
    | Scalar(text: string)
    | Array(items: seq<Value>)
    | Object(fields: map<string, Value>)

  datatype Row = Row(archivedAt: Option<int>, columns: map<string, Value>)

  const ARCHIVED_AT := "archivedAt"

  const COMBINATORS := ["AND", "OR", "NOT"]

  const ARCHIVABLE_MODELS := {"LearnerProfile", "Avatar", "ReferralCode", "Module", "WebhookEndpoint"}

  const FILTERED_OPERATIONS := {"findFirst", "findFirstOrThrow", "findMany", "count", "aggregate", "groupBy"}

  // ----- the rewrite -----

  predicate Mentions(where: Value) {
    match where
    case Array(items) => exists i :: 0 <= i < |items| && Mentions(items[i])
    case Object(fields) =>
      ARCHIVED_AT in fields || exists k :: k in COMBINATORS && k in fields && Mentions(fields[k])
    case _ => false
  }

  /** `{ ...(v ?? {}) }`, for the values that a `where` or an argument object can be. */
  function Spread(v: Value): map<string, Value> {
    if v.Object? then v.fields else map[]
  }

  function Where(args: Value): Value {
    if args.Object? && "where" in args.fields then args.fields["where"] else Undefined
  }

  function ActiveOnly(where: Value): Value {
    Object(Spread(where)[ARCHIVED_AT := Null])
  }

  function ArchivedOnly(where: Value): Value {
    Object(Spread(where)[ARCHIVED_AT := Object(map["not" := Null])])
  }

  function IncludeArchived(where: Value): Value {
    Object(Spread(where)[ARCHIVED_AT := Undefined])
  }

  predicate Filtered(model: Option<string>, operation: string) {
    model.Some? && model.value in ARCHIVABLE_MODELS && operation in FILTERED_OPERATIONS
  }

  /** The arguments that the query is really run with. */
  function ExcludeArchived(model: Option<string>, operation: string, args: Value): Value {
    if !Filtered(model, operation) then args
    else if Mentions(Where(args)) then args
    else Object(Spread(args)["where" := ActiveOnly(Where(args))])
  }

  // ----- what a clause means -----

  datatype Meaning = Meaning(
    other: (string, Value, map<string, Value>) -> bool,
    stamp: (Value, Option<int>) -> bool,
    combine: (string, seq<bool>) -> bool)

  /** The only two filters on `archivedAt` whose meaning matters. */
  ghost predicate Lawful(m: Meaning) {
    forall at: Option<int> ::
      (m.stamp(Null, at) <==> at.None?) && (m.stamp(Object(map["not" := Null]), at) <==> at.Some?)
  }

  /** A clause that is not an object does not restrict; a bare list is a conjunction. */
  predicate Holds(m: Meaning, where: Value, row: Row)
    decreases where, 0
  {
    match where
    case Object(fields) => forall k | k in fields :: HoldsEntry(m, k, fields[k], row)
    case Array(items) => m.combine("AND", Truths(m, items, row))
    case _ => true
  }

  /** An undefined filter is ignored, whatever it is a filter on. */
  predicate HoldsEntry(m: Meaning, key: string, v: Value, row: Row)
    decreases v, 1
  {
    if v.Undefined? then true
    else if key in COMBINATORS then
      m.combine(key, if v.Array? then Truths(m, v.items, row) else [Holds(m, v, row)])
    else if key == ARCHIVED_AT then m.stamp(v, row.archivedAt)
    else m.other(key, v, row.columns)
  }

  function Truths(m: Meaning, items: seq<Value>, row: Row): seq<bool>
    decreases items, 0
  {
    seq(|items|, i requires 0 <= i < |items| => Holds(m, items[i], row))
  }

  predicate Live(row: Row) {
    row.archivedAt.None?
  }

  /** What a list read returns, before it is ordered and cut into pages. */
  function Read(m: Meaning, where: Value, rows: seq<Row>): seq<Row> {
    if rows == [] then []
    else (if Holds(m, where, rows[0]) then [rows[0]] else []) + Read(m, where, rows[1..])
  }

  function LiveRows(rows: seq<Row>): seq<Row> {
    if rows == [] then [] else (if Live(rows[0]) then [rows[0]] else []) + LiveRows(rows[1..])
  }

  // ----- having an opinion -----

  /** One way down into a clause: to an item of a list, or under a combinator of an object. */
  datatype Hop = Item(i: nat) | Under(combinator: string)

  /** The hops lead to an object that has a key for the archive stamp, whatever its value. */
  predicate LeadsToStamp(v: Value, hops: seq<Hop>)
    decreases |hops|
  {
    if hops == [] then v.Object? && "archivedAt" in v.fields
    else
      match hops[0]
      case Item(i) => v.Array? && i < |v.items| && LeadsToStamp(v.items[i], hops[1..])
      case Under(k) =>
        && v.Object? && k in {"AND", "OR", "NOT"} && k in v.fields
        && LeadsToStamp(v.fields[k], hops[1..])
  }

  /** The caller says something about archived rows, at the top or inside boolean combinators. */
  ghost predicate HasOpinion(where: Value) {
    exists hops :: LeadsToStamp(where, hops)
  }

  lemma {:induction false} StampIsMentioned(v: Value, hops: seq<Hop>)
    requires LeadsToStamp(v, hops)
    ensures Mentions(v)
    decreases |hops|
  {
    if hops != [] {
      match hops[0]
      case Item(i) => StampIsMentioned(v.items[i], hops[1..]);
      case Under(k) =>
        StampIsMentioned(v.fields[k], hops[1..]);
        assert k in COMBINATORS;
    }
  }

  lemma {:induction false} MentionLeadsToStamp(v: Value) returns (hops: seq<Hop>)
    requires Mentions(v)
    ensures LeadsToStamp(v, hops)
  {
    hops := [];
    if v.Array? {
      var i: nat :| i < |v.items| && Mentions(v.items[i]);
      var rest := MentionLeadsToStamp(v.items[i]);
      hops := [Item(i)] + rest;
      assert hops[1..] == rest;
    } else if ARCHIVED_AT !in v.fields {
      var k :| k in COMBINATORS && k in v.fields && Mentions(v.fields[k]);
      var rest := MentionLeadsToStamp(v.fields[k]);
      hops := [Under(k)] + rest;
      assert hops[1..] == rest;
    }
  }

  /** The search for the stamp finds one exactly when list items and combinators lead to it. */
  lemma MentionedExactlyWhenLedTo(where: Value)
    ensures Mentions(where) <==> HasOpinion(where)
  {
    if Mentions(where) {
      var hops := MentionLeadsToStamp(where);
    }
    if hops :| LeadsToStamp(where, hops) { StampIsMentioned(where, hops); }
  }

  /** The list and aggregate reads of the models that can be archived. */
  predicate IsFilteredRead(model: Option<string>, operation: string) {
    && model.Some? && model.value in ["LearnerProfile", "Avatar", "ReferralCode", "Module", "WebhookEndpoint"]
    && operation in ["findFirst", "findFirstOrThrow", "findMany", "count", "aggregate", "groupBy"]
  }

  // ----- theorems -----

  /** A clause that does not mention `archivedAt` cannot tell an archived row from a live one. */
  lemma {:induction false} UnmentionedIsIrrelevant(m: Meaning, where: Value, row: Row, at: Option<int>)
    requires !Mentions(where)
    ensures Holds(m, where, row) <==> Holds(m, where, row.(archivedAt := at))
    decreases where, 1
  {
    match where
    case Object(fields) =>
      forall k | k in fields
        ensures HoldsEntry(m, k, fields[k], row) <==> HoldsEntry(m, k, fields[k], row.(archivedAt := at))
      {
        UnmentionedEntry(m, fields, k, row, at);
      }
    case Array(items) => UnmentionedItems(m, where, items, row, at);
    case _ =>
  }

  lemma {:induction false} UnmentionedItems(m: Meaning, where: Value, items: seq<Value>, row: Row, at: Option<int>)
    requires where == Array(items) && !Mentions(where)
    ensures Truths(m, items, row) == Truths(m, items, row.(archivedAt := at))
    decreases where, 0
  {
    forall i | 0 <= i < |items| ensures Holds(m, items[i], row) <==> Holds(m, items[i], row.(archivedAt := at)) {
      UnmentionedIsIrrelevant(m, items[i], row, at);
    }
  }

  lemma {:induction false} UnmentionedEntry(
      m: Meaning, fields: map<string, Value>, k: string, row: Row, at: Option<int>)
    requires !Mentions(Object(fields)) && k in fields
    ensures HoldsEntry(m, k, fields[k], row) <==> HoldsEntry(m, k, fields[k], row.(archivedAt := at))
    decreases Object(fields), 0
  {
    if k in COMBINATORS {
      assert !Mentions(fields[k]);
      if fields[k].Array? {
        UnmentionedItems(m, fields[k], fields[k].items, row, at);
      } else {
        UnmentionedIsIrrelevant(m, fields[k], row, at);
      }
    }
  }

  /** What the types of the query arguments allow. */
  predicate IsClause(where: Value) {
    where.Undefined? || where.Null? || where.Object?
  }

  predicate IsArguments(args: Value) {
    IsClause(args) && IsClause(Where(args))
  }

  lemma StampedEntry(m: Meaning, where: Value, v: Value, row: Row)
    requires IsClause(where)
    ensures Holds(m, Object(Spread(where)[ARCHIVED_AT := v]), row)
      <==> HoldsEntry(m, ARCHIVED_AT, v, row) && Holds(m, IncludeArchived(where), row)
  {
    var stamped, open := Spread(where)[ARCHIVED_AT := v], IncludeArchived(where).fields;
    assert stamped[ARCHIVED_AT] == v && open[ARCHIVED_AT] == Undefined;
    forall k | k in open && k != ARCHIVED_AT ensures k in stamped && stamped[k] == open[k] {}
    forall k | k in stamped && k != ARCHIVED_AT ensures k in open && stamped[k] == open[k] {}
  }

  /** Opting out removes the caller's own top-level filter on `archivedAt` and nothing else. */
  lemma OpenClause(m: Meaning, where: Value, row: Row)
    requires IsClause(where) && ARCHIVED_AT !in Spread(where)
    ensures Holds(m, IncludeArchived(where), row) <==> Holds(m, where, row)
  {
    var before, after := Spread(where), IncludeArchived(where).fields;
    forall k | k in before ensures k in after && after[k] == before[k] {}
    forall k | k in after && k != ARCHIVED_AT ensures k in before && after[k] == before[k] {}
  }

  lemma ActiveOnlyHolds(m: Meaning, where: Value, row: Row)
    requires Lawful(m) && IsClause(where)
    ensures Holds(m, ActiveOnly(where), row) <==> Holds(m, IncludeArchived(where), row) && Live(row)
    ensures Holds(m, ArchivedOnly(where), row) <==> Holds(m, IncludeArchived(where), row) && !Live(row)
  {
    StampedEntry(m, where, Null, row);
    StampedEntry(m, where, Object(map["not" := Null]), row);
    assert m.stamp(Null, row.archivedAt) <==> row.archivedAt.None?;
  }

  lemma {:induction false} ActiveOnlyReads(m: Meaning, where: Value, rows: seq<Row>)
    requires Lawful(m) && IsClause(where) && !Mentions(where)
    ensures Read(m, ActiveOnly(where), rows) == LiveRows(Read(m, where, rows))
    decreases |rows|
  {
    if rows != [] {
      ActiveOnlyHolds(m, where, rows[0]);
      OpenClause(m, where, rows[0]);
      ActiveOnlyReads(m, where, rows[1..]);
      var rest := Read(m, where, rows[1..]);
      var all := Read(m, where, rows);
      if Holds(m, where, rows[0]) {
        assert all == [rows[0]] + rest && all[1..] == rest;
      } else {
        assert all == rest;
      }
    }
  }

  /**
   * A filtered read returns exactly the live ones of the rows that the caller's own clause selects,
   * in their order, unless the caller has an opinion: then it returns what the clause says.
   */
  lemma FilteredReadsAreTheLivePart(m: Meaning, model: Option<string>, operation: string, args: Value, rows: seq<Row>)
    requires Lawful(m) && IsArguments(args)
    ensures var asked := Read(m, Where(args), rows);
      Read(m, Where(ExcludeArchived(model, operation, args)), rows)
      == if IsFilteredRead(model, operation) && !HasOpinion(Where(args)) then LiveRows(asked) else asked
  {
    MentionedExactlyWhenLedTo(Where(args));
    if Filtered(model, operation) && !Mentions(Where(args)) {
      ActiveOnlyReads(m, Where(args), rows);
    }
  }

  /** The query is left as it is exactly when it is not a filtered read or the caller has an opinion. */
  lemma UntouchedExactlyWhen(model: Option<string>, operation: string, args: Value)
    ensures ExcludeArchived(model, operation, args) == args
      <==> !IsFilteredRead(model, operation) || HasOpinion(Where(args))
  {
    MentionedExactlyWhenLedTo(Where(args));
    var after := ExcludeArchived(model, operation, args);
    if Filtered(model, operation) && !Mentions(Where(args)) {
      assert ARCHIVED_AT in Where(after).fields;
      assert Mentions(Where(after));
    }
  }

  predicate IsPlainFilter(v: Value) {
    v.Object? && {"archivedAt", "AND", "OR", "NOT"} !! v.fields.Keys
  }

  /** A search over several columns is no opinion: as a clause of the module list it is filtered. */
  lemma SearchIsFiltered(m: Meaning, columns: seq<Value>, rows: seq<Row>)
    requires Lawful(m) && forall i :: 0 <= i < |columns| ==> IsPlainFilter(columns[i])
    ensures var where := Object(map["OR" := Array(columns)]);
      Read(m, Where(ExcludeArchived(Some("Module"), "findMany", Object(map["where" := where]))), rows)
      == LiveRows(Read(m, where, rows))
  {
    var where := Object(map["OR" := Array(columns)]);
    var args := Object(map["where" := where]);
    forall i | 0 <= i < |columns| ensures !Mentions(columns[i]) {
      assert forall k :: k in COMBINATORS ==> k !in columns[i].fields;
    }
    assert !Mentions(Array(columns)) && !Mentions(where);
    MentionedExactlyWhenLedTo(where);
    FilteredReadsAreTheLivePart(m, Some("Module"), "findMany", args, rows);
  }

  lemma RewritingTwiceIsOnce(model: Option<string>, operation: string, args: Value)
    ensures var once := ExcludeArchived(model, operation, args);
      ExcludeArchived(model, operation, once) == once
  {
    var once := ExcludeArchived(model, operation, args);
    if Filtered(model, operation) && !Mentions(Where(args)) {
      assert ARCHIVED_AT in Where(once).fields;
    }
  }

  /** Everything else that the caller passes, such as order or page, arrives as it was. */
  lemma OtherArgumentsSurvive(model: Option<string>, operation: string, args: Value, k: string)
    requires IsArguments(args) && k != "where"
    ensures k in Spread(ExcludeArchived(model, operation, args)) <==> k in Spread(args)
    ensures k in Spread(args) ==> Spread(ExcludeArchived(model, operation, args))[k] == Spread(args)[k]
  {
    if Filtered(model, operation) && !Mentions(Where(args)) {
      assert ExcludeArchived(model, operation, args).fields == Spread(args)["where" := ActiveOnly(Where(args))];
    }
  }

  /** A row that a clause without an opinion selects is hidden while archived and back once restored. */
  lemma ArchivingHidesAndRestoringReturns(m: Meaning, where: Value, row: Row, at: int)
    requires Lawful(m) && IsClause(where) && !HasOpinion(where)
    ensures !Holds(m, ActiveOnly(where), row.(archivedAt := Some(at)))
    ensures Holds(m, ActiveOnly(where), row.(archivedAt := None)) <==> Holds(m, where, row)
  {
    MentionedExactlyWhenLedTo(where);
    ActiveOnlyHolds(m, where, row.(archivedAt := Some(at)));
    ActiveOnlyHolds(m, where, row.(archivedAt := None));
    OpenClause(m, where, row.(archivedAt := None));
    UnmentionedIsIrrelevant(m, where, row, None);
  }

  /** The three explicit forms are opinions, so no filtered read touches them. */
  lemma ExplicitFormsAreKept(model: Option<string>, operation: string, where: Value)
    ensures forall w :: w in {ActiveOnly(where), ArchivedOnly(where), IncludeArchived(where)} ==>
      ExcludeArchived(model, operation, Object(map["where" := w])) == Object(map["where" := w])
  {
    forall w | w in {ActiveOnly(where), ArchivedOnly(where), IncludeArchived(where)}
      ensures ExcludeArchived(model, operation, Object(map["where" := w])) == Object(map["where" := w])
    {
      assert ARCHIVED_AT in w.fields;
      assert Mentions(w);
    }
  }

  /** Live rows and archived rows split what the opted-out clause selects: nothing is lost or shared. */
  lemma ActiveAndArchivedPartition(m: Meaning, where: Value, row: Row)
    requires Lawful(m) && IsClause(where)
    ensures Holds(m, IncludeArchived(where), row)
      <==> Holds(m, ActiveOnly(where), row) || Holds(m, ArchivedOnly(where), row)
    ensures !(Holds(m, ActiveOnly(where), row) && Holds(m, ArchivedOnly(where), row))
  {
    ActiveOnlyHolds(m, where, row);
  }
}
