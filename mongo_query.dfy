/**
 * The query filters `MongoStorage.find_for_inquiry` sends to MongoDB
 * (vakt/storage/mongo.py), and a small evaluator of the part of the MongoDB
 * query language they use, so that what a filter selects can be stated.
 */
module MongoQuery {
  import opened Wrappers
  import opened Documents
  import opened Entities

  /** `MongoStorage.condition_fields`: the policy fields a string query constrains, in order. */
  const ConditionFields: seq<string> := ["actions", "subjects", "resources"]

  /** Python `s.rstrip(c)`: `s` without its trailing run of `c`. */
  function RStrip(s: string, c: char): (r: string)
    ensures |r| <= |s| && r == s[..|r|]
    ensures r == [] || r[|r| - 1] != c
    ensures forall i :: |r| <= i < |s| ==> s[i] == c
  {
    if s != [] && s[|s| - 1] == c then RStrip(s[..|s| - 1], c) else s
  }

  /** `getattr(inquiry, name)`: `None` stands for `AttributeError`. */
  function Attribute(inquiry: Inquiry, name: string): Option<Json> {
    if name == "subject" then Some(inquiry.subject)
    else if name == "action" then Some(inquiry.action)
    else if name == "resource" then Some(inquiry.resource)
    else None
  }

  /** Why no filter could be built. */
  datatype FilterError = UnknownCheckerType(checker: Checker) | AttributeError(name: string)

  /** `{field: {'$elemMatch': {operator: value}}}` */
  function ElemMatch(field: string, operator: string, value: Json): Json {
    JObj([(field, JObj([("$elemMatch", JObj([(operator, value)]))]))])
  }

  /** `{'type': t}` */
  function TypeIs(t: Json): Json {
    JObj([("type", t)])
  }

  /** The conditions the query loop has collected after the given condition fields. */
  function Conditions(operator: string, fields: seq<string>, inquiry: Inquiry): (r: Result<seq<Json>, FilterError>)
    ensures r.Ok? ==> |r.value| == |fields| + 1 && r.value[0] == TypeIs(TypeStringBased)
    decreases |fields|
  {
    if fields == [] then Ok([TypeIs(TypeStringBased)])
    else
      match Conditions(operator, fields[..|fields| - 1], inquiry)
      case Err(e) => Err(e)
      case Ok(cs) =>
        var field := fields[|fields| - 1];
        var name := RStrip(field, 's');
        match Attribute(inquiry, name)
        case None => Err(AttributeError(name))
        case Some(v) => Ok(cs + [ElemMatch(field, operator, v)])
  }

  /** `__string_query_on_conditions(operator, lambda field: getattr(inquiry, field))`. */
  function StringQuery(operator: string, inquiry: Inquiry): (r: Result<Json, FilterError>)
    ensures r.Ok? && r.value.JObj? && |r.value.fields| == 1 && r.value.fields[0].0 == "$and"
    ensures r.value.fields[0].1.JArr? && |r.value.fields[0].1.items| == |ConditionFields| + 1
  {
    CannotFail(operator, inquiry, |ConditionFields|);
    assert ConditionFields[..|ConditionFields|] == ConditionFields;
    match Conditions(operator, ConditionFields, inquiry)
    case Err(e) => Err(e)
    case Ok(cs) => Ok(JObj([("$and", JArr(cs))]))
  }

  /** The query loop, appending one `$elemMatch` condition per condition field. */
  method BuildStringQuery(operator: string, inquiry: Inquiry) returns (r: Result<Json, FilterError>)
    ensures r == StringQuery(operator, inquiry)
  {
    var conditions := [TypeIs(TypeStringBased)];
    var i := 0;
    while i < |ConditionFields|
      invariant 0 <= i <= |ConditionFields|
      invariant Conditions(operator, ConditionFields[..i], inquiry) == Ok(conditions)
    {
      var field := ConditionFields[i];
      assert ConditionFields[..i + 1][..i] == ConditionFields[..i];
      var name := RStrip(field, 's');
      var value := Attribute(inquiry, name);
      if value.None? {
        assert ConditionFields[..i + 1] == ConditionFields[..i] + [field];
        CannotFail(operator, inquiry, i + 1);
        return Err(AttributeError(name));
      }
      conditions := conditions + [ElemMatch(field, operator, value.value)];
      i := i + 1;
    }
    assert ConditionFields[..i] == ConditionFields;
    r := Ok(JObj([("$and", JArr(conditions))]));
  }

  /** Each condition field names an inquiry attribute once its plural `s` is stripped. */
  lemma CondFieldNames()
    ensures RStrip("actions", 's') == "action"
    ensures RStrip("subjects", 's') == "subject"
    ensures RStrip("resources", 's') == "resource"
  {
    assert "actions"[..6] == "action";
    assert "subjects"[..7] == "subject";
    assert "resources"[..8] == "resource";
  }

  lemma CannotFail(operator: string, inquiry: Inquiry, n: nat)
    requires n <= |ConditionFields|
    ensures Conditions(operator, ConditionFields[..n], inquiry).Ok?
  {
    CondFieldNames();
    if n > 0 {
      assert ConditionFields[..n][..n - 1] == ConditionFields[..n - 1];
      CannotFail(operator, inquiry, n - 1);
    }
  }

  /**
   * The string query is the conjunction of "type is string-based" and, for each
   * of `actions`, `subjects` and `resources`, "some element matches the
   * inquiry's action, subject or resource under `operator`".
   */
  lemma StringQueryShape(operator: string, inquiry: Inquiry)
    ensures StringQuery(operator, inquiry) == Ok(JObj([("$and", JArr([
      TypeIs(TypeStringBased),
      ElemMatch("actions", operator, inquiry.action),
      ElemMatch("subjects", operator, inquiry.subject),
      ElemMatch("resources", operator, inquiry.resource)]))]))
  {
    CondFieldNames();
    var t := TypeIs(TypeStringBased);
    var a := ElemMatch("actions", operator, inquiry.action);
    var sj := ElemMatch("subjects", operator, inquiry.subject);
    var rs := ElemMatch("resources", operator, inquiry.resource);
    var f1, f2, f3 := ["actions"], ["actions", "subjects"], ["actions", "subjects", "resources"];
    assert f1[..0] == [] && f2[..1] == f1 && f3[..2] == f2;
    assert Conditions(operator, [], inquiry) == Ok([t]);
    assert Conditions(operator, f1, inquiry) == Ok([t] + [a]);
    assert [t] + [a] == [t, a];
    assert f2[|f2| - 1] == "subjects";
    assert Conditions(operator, f2, inquiry) == Ok([t, a] + [sj]);
    assert [t, a] + [sj] == [t, a, sj];
    assert f3[|f3| - 1] == "resources";
    assert Conditions(operator, f3, inquiry) == Ok([t, a, sj] + [rs]);
    assert [t, a, sj] + [rs] == [t, a, sj, rs];
  }

  /** A one-clause query holds exactly when its clause does. */
  lemma MatchesOneClause(doc: seq<(string, Json)>, key: string, cond: Json, regex: RegexMatcher)
    ensures Matches(doc, JObj([(key, cond)]), regex) <==> Clause(doc, key, cond, regex)
  {
    var q := JObj([(key, cond)]);
    assert q.fields[0] == (key, cond);
  }

  /** An `$elemMatch` clause holds exactly when the field is an array with a matching element. */
  lemma ElemMatchHolds(doc: seq<(string, Json)>, field: string, op: string, value: Json, regex: RegexMatcher)
    requires field != "$and"
    ensures Matches(doc, ElemMatch(field, op, value), regex) <==> HasMatching(doc, field, op, value, regex)
  {
    MatchesOneClause(doc, field, JObj([("$elemMatch", JObj([(op, value)]))]), regex);
  }

  /** `MongoStorage._create_filter(inquiry, checker)`; `None` is a missing checker. */
  function CreateFilter(inquiry: Inquiry, checker: Option<Checker>): (r: Result<Json, FilterError>)
    ensures checker.Some? && checker.value.kind == OtherKind ==> r == Err(UnknownCheckerType(checker.value))
    ensures checker.None? ==> r == Ok(JObj([]))
  {
    match checker
    case None => Ok(JObj([]))
    case Some(c) =>
      match c.kind
      case FuzzyKind => StringQuery("$regex", inquiry)
      case ExactKind => StringQuery("$eq", inquiry)
      case RegexKind => Ok(TypeIs(TypeStringBased))
      case RulesKind => Ok(TypeIs(TypeRuleBased))
      case OtherKind => Err(UnknownCheckerType(c))
  }

  // ----- what a filter selects -----

  /** The matcher behind `$regex`: whether an array element matches a pattern (MongoDB's regular expressions are not modelled). */
  type RegexMatcher = (Json, Json) -> bool

  /** Whether a stored document satisfies a query document. */
  predicate Matches(doc: seq<(string, Json)>, query: Json, regex: RegexMatcher)
    decreases query, 1
  {
    query.JObj? && forall i :: 0 <= i < |query.fields| ==> Clause(doc, query.fields[i].0, query.fields[i].1, regex)
  }

  /** One top-level clause: `$and` of sub-queries, an `$elemMatch` on an array field, or equality. */
  predicate Clause(doc: seq<(string, Json)>, key: string, cond: Json, regex: RegexMatcher)
    decreases cond, 0
  {
    if key == "$and" then
      cond.JArr? && forall j :: 0 <= j < |cond.items| ==> Matches(doc, cond.items[j], regex)
    else
      match Get(doc, key)
      case None => false
      case Some(x) =>
        if cond.JObj? && |cond.fields| == 1 && cond.fields[0].0 == "$elemMatch" &&
           cond.fields[0].1.JObj? && |cond.fields[0].1.fields| == 1
        then
          var (op, v) := cond.fields[0].1.fields[0];
          x.JArr? && exists e :: e in x.items && ElementMatches(e, op, v, regex)
        else x == cond
  }

  predicate ElementMatches(e: Json, op: string, v: Json, regex: RegexMatcher) {
    if op == "$eq" then e == v else if op == "$regex" then regex(e, v) else false
  }

  /** Whether the array stored under `field` has an element matching `value` under `op`. */
  predicate HasMatching(doc: seq<(string, Json)>, field: string, op: string, value: Json, regex: RegexMatcher) {
    Get(doc, field).Some? && Get(doc, field).value.JArr? &&
    exists e :: e in Get(doc, field).value.items && ElementMatches(e, op, value, regex)
  }

  lemma StringQueryMatches(doc: seq<(string, Json)>, operator: string, inquiry: Inquiry, regex: RegexMatcher)
    ensures StringQuery(operator, inquiry).Ok?
    ensures Matches(doc, StringQuery(operator, inquiry).value, regex) <==>
      Get(doc, "type") == Some(TypeStringBased) &&
      HasMatching(doc, "actions", operator, inquiry.action, regex) &&
      HasMatching(doc, "subjects", operator, inquiry.subject, regex) &&
      HasMatching(doc, "resources", operator, inquiry.resource, regex)
  {
    StringQueryShape(operator, inquiry);
    var cs := [TypeIs(TypeStringBased),
      ElemMatch("actions", operator, inquiry.action),
      ElemMatch("subjects", operator, inquiry.subject),
      ElemMatch("resources", operator, inquiry.resource)];
    MatchesOneClause(doc, "$and", JArr(cs), regex);
    MatchesOneClause(doc, "type", TypeStringBased, regex);
    ElemMatchHolds(doc, "actions", operator, inquiry.action, regex);
    ElemMatchHolds(doc, "subjects", operator, inquiry.subject, regex);
    ElemMatchHolds(doc, "resources", operator, inquiry.resource, regex);
    assert Clause(doc, "$and", JArr(cs), regex) <==>
      Matches(doc, cs[0], regex) && Matches(doc, cs[1], regex) && Matches(doc, cs[2], regex) && Matches(doc, cs[3], regex);
  }

  /**
   * What each checker's filter selects: the exact checker, policies of the
   * string-based type listing the inquiry's action, subject and resource
   * verbatim; the fuzzy checker the same under `$regex`; the regex and rules
   * checkers, every policy of their type; no checker, every policy.
   */
  lemma FilterSelects(doc: seq<(string, Json)>, inquiry: Inquiry, c: Checker, regex: RegexMatcher)
    requires c.kind != OtherKind
    ensures CreateFilter(inquiry, Some(c)).Ok? && CreateFilter(inquiry, None).Ok?
    ensures Matches(doc, CreateFilter(inquiry, None).value, regex)
    ensures c.kind == ExactKind ==> (Matches(doc, CreateFilter(inquiry, Some(c)).value, regex) <==>
      Get(doc, "type") == Some(TypeStringBased) &&
      HasMatching(doc, "actions", "$eq", inquiry.action, regex) &&
      HasMatching(doc, "subjects", "$eq", inquiry.subject, regex) &&
      HasMatching(doc, "resources", "$eq", inquiry.resource, regex))
    ensures c.kind == FuzzyKind ==> (Matches(doc, CreateFilter(inquiry, Some(c)).value, regex) <==>
      Get(doc, "type") == Some(TypeStringBased) &&
      HasMatching(doc, "actions", "$regex", inquiry.action, regex) &&
      HasMatching(doc, "subjects", "$regex", inquiry.subject, regex) &&
      HasMatching(doc, "resources", "$regex", inquiry.resource, regex))
    ensures c.kind == RegexKind ==> (Matches(doc, CreateFilter(inquiry, Some(c)).value, regex) <==>
      Get(doc, "type") == Some(TypeStringBased))
    ensures c.kind == RulesKind ==> (Matches(doc, CreateFilter(inquiry, Some(c)).value, regex) <==>
      Get(doc, "type") == Some(TypeRuleBased))
  {
    match c.kind
    case ExactKind => StringQueryMatches(doc, "$eq", inquiry, regex);
    case FuzzyKind => StringQueryMatches(doc, "$regex", inquiry, regex);
    case RegexKind =>
      MatchesOneClause(doc, "type", TypeStringBased, regex);
    case RulesKind =>
      MatchesOneClause(doc, "type", TypeRuleBased, regex);
  }

  /** A string-based checker never receives a rule-based policy, nor a rules checker a string-based one. */
  lemma FilterSeparatesTypes(doc: seq<(string, Json)>, inquiry: Inquiry, c: Checker, regex: RegexMatcher)
    requires c.kind != OtherKind
    requires CreateFilter(inquiry, Some(c)).Ok? && Matches(doc, CreateFilter(inquiry, Some(c)).value, regex)
    ensures c.kind == RulesKind <==> Get(doc, "type") == Some(TypeRuleBased)
  {
    FilterSelects(doc, inquiry, c, regex);
  }

  /** The exact and fuzzy filters are the same query with `$eq` in place of `$regex`. */
  lemma ExactAndFuzzyDifferInOperatorOnly(inquiry: Inquiry, exact: Checker, fuzzy: Checker)
    requires exact.kind == ExactKind && fuzzy.kind == FuzzyKind
    ensures CreateFilter(inquiry, Some(exact)) == StringQuery("$eq", inquiry)
    ensures CreateFilter(inquiry, Some(fuzzy)) == StringQuery("$regex", inquiry)
    ensures CreateFilter(inquiry, Some(exact)).Ok? && CreateFilter(inquiry, Some(fuzzy)).Ok?
  {
    StringQueryShape("$eq", inquiry);
    StringQueryShape("$regex", inquiry);
  }

  /** `_create_filter` as the storage calls it, building string queries with the loop. */
  method BuildFilter(inquiry: Inquiry, checker: Option<Checker>) returns (r: Result<Json, FilterError>)
    ensures r == CreateFilter(inquiry, checker)
  {
    if checker.None? {
      return Ok(JObj([]));
    }
    var c := checker.value;
    match c.kind {
      case FuzzyKind => r := BuildStringQuery("$regex", inquiry);
      case ExactKind => r := BuildStringQuery("$eq", inquiry);
      case RegexKind => r := Ok(TypeIs(TypeStringBased));
      case RulesKind => r := Ok(TypeIs(TypeRuleBased));
      case OtherKind => r := Err(UnknownCheckerType(c));
    }
  }
}
