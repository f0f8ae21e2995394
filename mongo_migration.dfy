/**
 * The document rewrite of `Migration1x1x1To1x2x0` (vakt/storage/mongo.py):
 * `up` turns a policy document of vakt 1.1.1 into one of 1.2.0, and `down`
 * turns it back or refuses with `Irreversible`.
 *
 * A document is an ordered list of fields, as a Python dict iterates; a rule
 * is a jsonpickle document whose `py/object` field names its class.
 */
module MongoMigration {
  import opened Wrappers
  import opened Documents
  import opened Entities

  type Doc = seq<(string, Json)>

  /** `jsonpickle.tags.OBJECT` */
  const ObjectTag: string := "py/object"

  /** `rules_rename`: each rule class of 1.1.1 and its name in 1.2.0, in order. */
  const RulesRename: seq<(string, string)> := [
    ("vakt.rules.string.StringEqualRule", "vakt.rules.string.Equal"),
    ("vakt.rules.string.RegexMatchRule", "vakt.rules.string.RegexMatch"),
    ("vakt.rules.string.StringPairsEqualRule", "vakt.rules.string.PairsEqual"),
    ("vakt.rules.net.CIDRRule", "vakt.rules.net.CIDR"),
    ("vakt.rules.inquiry.SubjectEqualRule", "vakt.rules.inquiry.SubjectEqual"),
    ("vakt.rules.inquiry.ActionEqualRule", "vakt.rules.inquiry.ActionEqual"),
    ("vakt.rules.inquiry.ResourceInRule", "vakt.rules.inquiry.ResourceIn")
  ]

  datatype IrreversibleReason = NotStringBased | RuleOnlyInNewVersion(ruleType: string)

  /** The exceptions a `process` closure raises. */
  datatype MigrationError =
    | KeyError(key: string)
    | TypeError
    | AttributeError
    | Irreversible(reason: IrreversibleReason)

  /**
   * The rename loop over `rules_rename`: the name paired with the first entry
   * whose old side (`up`) or new side (`down`) equals the rule type.
   */
  function Renaming(table: seq<(string, string)>, ruleType: Json, up: bool): (r: Option<string>)
    ensures r.Some? ==> exists i :: 0 <= i < |table| && ruleType == JStr(if up then table[i].0 else table[i].1) &&
                                   r.value == (if up then table[i].1 else table[i].0)
    ensures r.None? <==> forall i :: 0 <= i < |table| ==> ruleType != JStr(if up then table[i].0 else table[i].1)
  {
    if table == [] then None
    else if ruleType == JStr(if up then table[0].0 else table[0].1) then Some(if up then table[0].1 else table[0].0)
    else
      var rest := Renaming(table[1..], ruleType, up);
      assert forall i :: 1 <= i < |table| ==> table[i] == table[1..][i - 1];
      rest
  }

  /** The `for old, new in self.rules_rename.items()` loop with its `break`. */
  method RenameType(ruleType: Json, up: bool) returns (r: Option<string>)
    ensures r == Renaming(RulesRename, ruleType, up)
  {
    r := None;
    var i := 0;
    while i < |RulesRename|
      invariant 0 <= i <= |RulesRename|
      invariant Renaming(RulesRename, ruleType, up) == Renaming(RulesRename[i..], ruleType, up)
    {
      var (before, after) := RulesRename[i];
      if ruleType == JStr(if up then before else after) {
        r := Some(if up then after else before);
        break;
      }
      assert RulesRename[i..][1..] == RulesRename[i + 1..];
      i := i + 1;
    }
  }

  /** `rule[jsonpickle.tags.OBJECT]` */
  function RuleType(rule: Json): (r: Result<Json, MigrationError>)
    ensures r.Ok? <==> rule.JObj? && Get(rule.fields, ObjectTag).Some?
    ensures r.Ok? ==> Some(r.value) == Get(rule.fields, ObjectTag)
  {
    if !rule.JObj? then Err(TypeError)
    else match Get(rule.fields, ObjectTag)
      case None => Err(KeyError(ObjectTag))
      case Some(t) => Ok(t)
  }

  /** `rule[jsonpickle.tags.OBJECT] = name` */
  function Retagged(rule: Json, name: string): (r: Json)
    requires rule.JObj?
    ensures r.JObj? && Get(r.fields, ObjectTag) == Some(JStr(name))
    ensures forall k :: k != ObjectTag ==> Get(r.fields, k) == Get(rule.fields, k)
  {
    JObj(Put(rule.fields, ObjectTag, JStr(name)))
  }

  /** One rule in `up`: renamed when its class is in `rules_rename`. */
  function UpRule(rule: Json): (r: Result<Json, MigrationError>)
    ensures r.Ok? <==> RuleType(rule).Ok?
    ensures r.Ok? ==> RuleType(r.value).Ok? && RuleType(r.value).value.JStr? == RuleType(rule).value.JStr?
  {
    match RuleType(rule)
    case Err(e) => Err(e)
    case Ok(t) =>
      match Renaming(RulesRename, t, true)
      case None => Ok(rule)
      case Some(name) => Ok(Retagged(rule, name))
  }

  /** The rule types that exist only from 1.2.0 on. */
  predicate OnlyInNewVersion(ruleType: string) {
    "vakt.rules.list" <= ruleType || "vakt.rules.logic" <= ruleType || "vakt.rules.operator" <= ruleType ||
    ruleType in ["vakt.rules.string.StartsWith", "vakt.rules.string.EndsWith", "vakt.rules.string.Contains"]
  }

  /**
   * One rule in `down`: renamed back, then refused when its type as read
   * before the rename is not a string (no `startswith`) or exists only in 1.2.0.
   */
  function DownRule(rule: Json): (r: Result<Json, MigrationError>)
    ensures r.Ok? ==> RuleType(rule).Ok? && RuleType(rule).value.JStr? && !OnlyInNewVersion(RuleType(rule).value.s)
    ensures r.Ok? ==> RuleType(r.value).Ok? && RuleType(r.value).value.JStr?
    ensures r.Err? ==> !r.error.KeyError? || r.error == KeyError(ObjectTag)
  {
    match RuleType(rule)
    case Err(e) => Err(e)
    case Ok(t) =>
      var renamed := match Renaming(RulesRename, t, false) case None => rule case Some(name) => Retagged(rule, name);
      if !t.JStr? then Err(AttributeError)
      else if OnlyInNewVersion(t.s) then Err(Irreversible(RuleOnlyInNewVersion(t.s)))
      else Ok(renamed)
  }

  /** `for rule in rules.values(): …`, each rule rewritten where it stands; the first error stops the loop. */
  function EachRule(rules: Doc, step: Json -> Result<Json, MigrationError>): (r: Result<Doc, MigrationError>)
    ensures r.Ok? ==> |r.value| == |rules| && forall i :: 0 <= i < |rules| ==> r.value[i].0 == rules[i].0
    decreases |rules|
  {
    if rules == [] then Ok([])
    else
      match EachRule(rules[..|rules| - 1], step)
      case Err(e) => Err(e)
      case Ok(done) =>
        match step(rules[|rules| - 1].1)
        case Err(e) => Err(e)
        case Ok(r) => Ok(done + [(rules[|rules| - 1].0, r)])
  }

  /** Python's `doc['type'] != TYPE_STRING_BASED` is false (`True == 1`). */
  predicate IsStringBased(t: Json) {
    t == TypeStringBased || t == JBool(true)
  }

  /** The `process` closure of `up`. */
  function Up(doc: Doc): (r: Result<Doc, MigrationError>)
    ensures r.Ok? ==> Get(r.value, "type") == Some(TypeStringBased) && Get(r.value, "rules") == None
    ensures r.Ok? ==> Get(r.value, "context").Some? && Get(r.value, "context").value.JObj?
  {
    var typed := Put(doc, "type", TypeStringBased);
    match Get(typed, "rules")
    case None => Err(KeyError("rules"))
    case Some(rules) =>
      if !rules.JObj? then Err(AttributeError)
      else
        match EachRule(rules.fields, UpRule)
        case Err(e) => Err(e)
        case Ok(renamed) => Ok(Del(Put(typed, "context", JObj(renamed)), "rules"))
  }

  /** The `process` closure of `down`. */
  function Down(doc: Doc): (r: Result<Doc, MigrationError>)
    ensures r.Ok? ==> Get(doc, "type").Some? && IsStringBased(Get(doc, "type").value)
    ensures r.Ok? ==> Get(r.value, "type") == None && Get(r.value, "context") == None
    ensures r.Ok? ==> Get(r.value, "rules").Some? && Get(r.value, "rules").value.JObj?
  {
    match Get(doc, "type")
    case None => Err(KeyError("type"))
    case Some(t) =>
      if !IsStringBased(t) then Err(Irreversible(NotStringBased))
      else
        match Get(doc, "context")
        case None => Err(KeyError("context"))
        case Some(context) =>
          if !context.JObj? then Err(AttributeError)
          else
            match EachRule(context.fields, DownRule)
            case Err(e) => Err(e)
            case Ok(renamed) => Ok(Del(Del(Put(doc, "rules", JObj(renamed)), "context"), "type"))
  }

  // ----- the closures, step by step -----

  /** The body of `up`'s rule loop: one rule's class renamed to its 1.2.0 name, if it has one. */
  method UpOne(rule: Json) returns (r: Result<Json, MigrationError>)
    ensures r == UpRule(rule)
  {
    var t := RuleType(rule);
    if t.Err? {
      return Err(t.error);
    }
    var name := RenameType(t.value, true);
    r := Ok(if name.Some? then Retagged(rule, name.value) else rule);
  }

  /**
   * The body of `down`'s rule loop: one rule's class renamed back, refusing a
   * type that is not a string or exists only in 1.2.0.
   */
  method DownOne(rule: Json) returns (r: Result<Json, MigrationError>)
    ensures r == DownRule(rule)
  {
    var ruleType := RuleType(rule);
    if ruleType.Err? {
      return Err(ruleType.error);
    }
    var name := RenameType(ruleType.value, false);
    var renamed := if name.Some? then Retagged(rule, name.value) else rule;
    if !ruleType.value.JStr? {
      return Err(AttributeError);
    }
    if OnlyInNewVersion(ruleType.value.s) {
      return Err(Irreversible(RuleOnlyInNewVersion(ruleType.value.s)));
    }
    r := Ok(renamed);
  }

  /** The rule loop of `up`. */
  method UpRules(entries: Doc) returns (r: Result<Doc, MigrationError>)
    ensures r == EachRule(entries, UpRule)
  {
    var done: Doc := [];
    var i := 0;
    while i < |entries|
      invariant 0 <= i <= |entries|
      invariant EachRule(entries[..i], UpRule) == Ok(done)
    {
      var rule := UpOne(entries[i].1);
      EachRuleSnoc(entries, UpRule, i, done);
      if rule.Err? {
        EachRuleStops(entries, UpRule, i + 1);
        return Err(rule.error);
      }
      done := done + [(entries[i].0, rule.value)];
      i := i + 1;
    }
    assert entries[..i] == entries;
    r := Ok(done);
  }

  /** The rule loop of `down`. */
  method DownRules(entries: Doc) returns (r: Result<Doc, MigrationError>)
    ensures r == EachRule(entries, DownRule)
  {
    var done: Doc := [];
    var i := 0;
    while i < |entries|
      invariant 0 <= i <= |entries|
      invariant EachRule(entries[..i], DownRule) == Ok(done)
    {
      var rule := DownOne(entries[i].1);
      EachRuleSnoc(entries, DownRule, i, done);
      if rule.Err? {
        EachRuleStops(entries, DownRule, i + 1);
        return Err(rule.error);
      }
      done := done + [(entries[i].0, rule.value)];
      i := i + 1;
    }
    assert entries[..i] == entries;
    r := Ok(done);
  }

  /** `up`'s `process(doc)`. */
  method ProcessUp(doc: Doc) returns (r: Result<Doc, MigrationError>)
    ensures r == Up(doc)
  {
    var d := Put(doc, "type", TypeStringBased);
    var rules := Get(d, "rules");
    if rules.None? {
      return Err(KeyError("rules"));
    }
    if !rules.value.JObj? {
      return Err(AttributeError);
    }
    var done := UpRules(rules.value.fields);
    if done.Err? {
      return Err(done.error);
    }
    d := Put(d, "context", JObj(done.value));
    d := Del(d, "rules");
    r := Ok(d);
  }

  /** `down`'s `process(doc)`. */
  method ProcessDown(doc: Doc) returns (r: Result<Doc, MigrationError>)
    ensures r == Down(doc)
  {
    var t := Get(doc, "type");
    if t.None? {
      return Err(KeyError("type"));
    }
    if !IsStringBased(t.value) {
      return Err(Irreversible(NotStringBased));
    }
    var context := Get(doc, "context");
    if context.None? {
      return Err(KeyError("context"));
    }
    if !context.value.JObj? {
      return Err(AttributeError);
    }
    var done := DownRules(context.value.fields);
    if done.Err? {
      return Err(done.error);
    }
    var d := Put(doc, "rules", JObj(done.value));
    d := Del(d, "context");
    d := Del(d, "type");
    r := Ok(d);
  }

  // ----- what the closures promise -----

  /** One more rule through the loop: its step's error, or its result appended. */
  lemma EachRuleSnoc(rules: Doc, step: Json -> Result<Json, MigrationError>, i: nat, done: Doc)
    requires i < |rules| && EachRule(rules[..i], step) == Ok(done)
    ensures step(rules[i].1).Err? ==> EachRule(rules[..i + 1], step) == Err(step(rules[i].1).error)
    ensures step(rules[i].1).Ok? ==> EachRule(rules[..i + 1], step) == Ok(done + [(rules[i].0, step(rules[i].1).value)])
  {
    assert rules[..i + 1][..i] == rules[..i];
  }

  /** Once a rule fails, the loop's outcome is that failure. */
  lemma {:induction false} EachRuleStops(rules: Doc, step: Json -> Result<Json, MigrationError>, k: nat)
    requires k <= |rules| && EachRule(rules[..k], step).Err?
    ensures EachRule(rules, step) == EachRule(rules[..k], step)
    decreases |rules|
  {
    if k < |rules| {
      assert rules[..|rules| - 1][..k] == rules[..k];
      EachRuleStops(rules[..|rules| - 1], step, k);
    } else {
      assert rules[..k] == rules;
    }
  }

  /** The loop succeeds exactly when every rule does, and then rewrites each rule in place under its name. */
  lemma {:induction false} EachRulePointwise(rules: Doc, step: Json -> Result<Json, MigrationError>)
    ensures EachRule(rules, step).Ok? <==> forall i :: 0 <= i < |rules| ==> step(rules[i].1).Ok?
    ensures EachRule(rules, step).Ok? ==>
      |EachRule(rules, step).value| == |rules| &&
      forall i :: 0 <= i < |rules| ==> EachRule(rules, step).value[i] == (rules[i].0, step(rules[i].1).value)
    decreases |rules|
  {
    if rules != [] {
      var init := rules[..|rules| - 1];
      EachRulePointwise(init, step);
      assert forall i :: 0 <= i < |init| ==> init[i] == rules[i];
    }
  }

  /** A lookup finds entry `i` when no earlier entry has the same key on the searched side. */
  lemma {:induction false} RenamingFinds(table: seq<(string, string)>, i: nat, up: bool)
    requires i < |table|
    requires forall j :: 0 <= j < i ==>
      (if up then table[j].0 else table[j].1) != (if up then table[i].0 else table[i].1)
    ensures Renaming(table, JStr(if up then table[i].0 else table[i].1), up) == Some(if up then table[i].1 else table[i].0)
    decreases i
  {
    if i > 0 {
      var key := if up then table[i].0 else table[i].1;
      assert JStr(key) != JStr(if up then table[0].0 else table[0].1);
      assert forall j :: 0 <= j < i - 1 ==> table[1..][j] == table[j + 1];
      RenamingFinds(table[1..], i - 1, up);
    }
  }

  /** No two entries of `rules_rename` share a 1.2.0 name. */
  lemma NewNamesDistinct()
    ensures forall i, j :: 0 <= j < i < |RulesRename| ==> RulesRename[j].1 != RulesRename[i].1
  {
    assert RulesRename[1].1[18] != RulesRename[2].1[18];
  }

  /** Every rule of 1.1.1 gets back its own name from its 1.2.0 name. */
  lemma RenameInverse(s: string)
    ensures Renaming(RulesRename, JStr(s), true).Some? ==>
      Renaming(RulesRename, JStr(Renaming(RulesRename, JStr(s), true).value), false) == Some(s)
    ensures Renaming(RulesRename, JStr(s), true).Some? ==>
      !OnlyInNewVersion(Renaming(RulesRename, JStr(s), true).value)
  {
    var r := Renaming(RulesRename, JStr(s), true);
    if r.Some? {
      var i :| 0 <= i < |RulesRename| && JStr(s) == JStr(RulesRename[i].0) && r.value == RulesRename[i].1;
      NewNamesDistinct();
      RenamingFinds(RulesRename, i, false);
      NewNamesExistInOldVersion();
    }
  }


  /** No 1.2.0 name in `rules_rename` is refused by `down`. */
  lemma NewNamesExistInOldVersion()
    ensures forall i :: 0 <= i < |RulesRename| ==> !OnlyInNewVersion(RulesRename[i].1)
  {
    forall i | 0 <= i < |RulesRename| ensures !OnlyInNewVersion(RulesRename[i].1) {
      var n := RulesRename[i].1;
      assert n[11] in "sni";
      NotInNewPackages(n);
      assert n != "vakt.rules.string.StartsWith" && n != "vakt.rules.string.EndsWith" && n != "vakt.rules.string.Contains";
    }
  }

  /** A name whose package is `string`, `net` or `inquiry` is not in the list, logic or operator package. */
  lemma NotInNewPackages(n: string)
    requires |n| > 11 && n[11] in "sni"
    ensures !("vakt.rules.list" <= n) && !("vakt.rules.logic" <= n) && !("vakt.rules.operator" <= n)
  {
    var l, g, o := "vakt.rules.list", "vakt.rules.logic", "vakt.rules.operator";
    assert l[11] == 'l' && g[11] == 'l' && o[11] == 'o';
    NotPrefix(l, n, 11);
    NotPrefix(g, n, 11);
    NotPrefix(o, n, 11);
  }

  lemma NotPrefix(p: string, n: string, i: nat)
    requires i < |p| && i < |n| && p[i] != n[i]
    ensures !(p <= n)
  {
  }

  /** A rule `down` accepts back: tagged with a string naming a class that 1.1.1 knows. */
  predicate OldRule(rule: Json) {
    rule.JObj? && Get(rule.fields, ObjectTag).Some? && Get(rule.fields, ObjectTag).value.JStr? &&
    var s := Get(rule.fields, ObjectTag).value.s;
    Renaming(RulesRename, JStr(s), false).None? && !OnlyInNewVersion(s)
  }

  /** `up` followed by `down` gives an old rule back unchanged. */
  lemma RuleRoundTrip(rule: Json)
    requires OldRule(rule)
    ensures UpRule(rule).Ok? && DownRule(UpRule(rule).value) == Ok(rule)
  {
    var s := Get(rule.fields, ObjectTag).value.s;
    RenameInverse(s);
    match Renaming(RulesRename, JStr(s), true)
    case None =>
    case Some(name) =>
      PutPut(rule.fields, ObjectTag, JStr(name), JStr(s));
      PutSameValue(rule.fields, ObjectTag, JStr(s));
  }

  /** `up` fails exactly when `rules` is missing, is not a dict, or holds a rule without a readable type. */
  lemma UpSucceedsIff(doc: Doc)
    ensures Up(doc).Ok? <==>
      Get(doc, "rules").Some? && Get(doc, "rules").value.JObj? &&
      forall i :: 0 <= i < |Get(doc, "rules").value.fields| ==> RuleType(Get(doc, "rules").value.fields[i].1).Ok?
    ensures Get(doc, "rules") == None ==> Up(doc) == Err(KeyError("rules"))
  {
    match Get(doc, "rules")
    case None =>
    case Some(rules) =>
      if rules.JObj? {
        EachRulePointwise(rules.fields, UpRule);
      }
  }

  /**
   * After `up`: the type is string-based, `rules` is gone, `context` holds the
   * same rules under the same names, each renamed where `rules_rename` says,
   * and every other field is as before.
   */
  lemma UpResult(doc: Doc, rules: Doc)
    requires Get(doc, "rules") == Some(JObj(rules)) && Up(doc).Ok?
    ensures Get(Up(doc).value, "type") == Some(TypeStringBased)
    ensures Get(Up(doc).value, "rules") == None
    ensures forall k :: k != "type" && k != "rules" && k != "context" ==> Get(Up(doc).value, k) == Get(doc, k)
    ensures Get(Up(doc).value, "context").Some? && Get(Up(doc).value, "context").value.JObj?
    ensures var context := Get(Up(doc).value, "context").value.fields;
      |context| == |rules| &&
      (forall i :: 0 <= i < |rules| ==> context[i].0 == rules[i].0) &&
      (forall i :: 0 <= i < |rules| ==> UpRule(rules[i].1) == Ok(context[i].1))
  {
    var typed := Put(doc, "type", TypeStringBased);
    assert Get(typed, "rules") == Some(JObj(rules));
    EachRulePointwise(rules, UpRule);
    var renamed := EachRule(rules, UpRule).value;
    var withContext := Put(typed, "context", JObj(renamed));
    assert Up(doc) == Ok(Del(withContext, "rules"));
    assert Get(withContext, "type") == Some(TypeStringBased);
    assert Get(Up(doc).value, "context") == Some(JObj(renamed));
  }

  /** An up-renamed rule carries the 1.2.0 name of its class, or its old type when there is none. */
  lemma UpRuleRenames(rule: Json)
    requires UpRule(rule).Ok?
    ensures var t := Get(rule.fields, ObjectTag).value;
      Get(UpRule(rule).value.fields, ObjectTag) ==
        Some(match Renaming(RulesRename, t, true) case None => t case Some(name) => JStr(name))
    ensures forall k :: k != ObjectTag ==> Get(UpRule(rule).value.fields, k) == Get(rule.fields, k)
  {
  }

  /** `down` refuses a document whose type is not string-based. */
  lemma DownRefusesOtherTypes(doc: Doc)
    requires Get(doc, "type").Some? && !IsStringBased(Get(doc, "type").value)
    ensures Down(doc) == Err(Irreversible(NotStringBased))
  {
  }

  /**
   * `down` refuses a rule whose type, as read before renaming back, is a
   * list, logic or operator rule or one of `StartsWith`, `EndsWith`, `Contains`.
   */
  lemma DownRefusesNewRules(rule: Json)
    requires rule.JObj? && Get(rule.fields, ObjectTag).Some? && Get(rule.fields, ObjectTag).value.JStr?
    requires OnlyInNewVersion(Get(rule.fields, ObjectTag).value.s)
    ensures DownRule(rule) == Err(Irreversible(RuleOnlyInNewVersion(Get(rule.fields, ObjectTag).value.s)))
  {
  }

  /** `down` succeeds exactly on string-based documents whose context holds only rules 1.1.1 can store. */
  lemma DownSucceedsIff(doc: Doc)
    ensures Down(doc).Ok? <==>
      Get(doc, "type").Some? && IsStringBased(Get(doc, "type").value) &&
      Get(doc, "context").Some? && Get(doc, "context").value.JObj? &&
      forall i :: 0 <= i < |Get(doc, "context").value.fields| ==>
        var t := RuleType(Get(doc, "context").value.fields[i].1);
        t.Ok? && t.value.JStr? && !OnlyInNewVersion(t.value.s)
  {
    match Get(doc, "context")
    case None =>
    case Some(context) =>
      if context.JObj? {
        EachRulePointwise(context.fields, DownRule);
      }
  }

  /**
   * `down(up(doc))` is `doc` as a dict, for a 1.1.1 document: no `type` or
   * `context` field and only rules whose class 1.1.1 knows.
   */
  lemma DownUndoesUp(doc: Doc)
    requires Get(doc, "type") == None && Get(doc, "context") == None
    requires Get(doc, "rules").Some? && Get(doc, "rules").value.JObj?
    requires forall i :: 0 <= i < |Get(doc, "rules").value.fields| ==> OldRule(Get(doc, "rules").value.fields[i].1)
    ensures Up(doc).Ok? && Down(Up(doc).value).Ok?
    ensures SameDict(Down(Up(doc).value).value, doc)
  {
    var rules := Get(doc, "rules").value.fields;
    UpRulesRoundTrip(rules);
    UpSucceedsIff(doc);
    var u := Up(doc).value;
    UpResult(doc, rules);
    var context := Get(u, "context").value.fields;
    assert context == EachRule(rules, UpRule).value by {
      EachRulePointwise(rules, UpRule);
    }
    DownForm(u, context, rules);
    var d := Del(Del(Put(u, "rules", JObj(rules)), "context"), "type");
    forall k ensures Get(d, k) == Get(doc, k) {
      if k != "type" && k != "rules" && k != "context" {
        assert Get(d, k) == Get(u, k);
      }
    }
  }

  /** Up then down maps each old rule to itself, so the rules come back as they were. */
  lemma UpRulesRoundTrip(rules: Doc)
    requires forall i :: 0 <= i < |rules| ==> OldRule(rules[i].1)
    ensures EachRule(rules, UpRule).Ok?
    ensures EachRule(EachRule(rules, UpRule).value, DownRule) == Ok(rules)
  {
    forall i | 0 <= i < |rules| ensures UpRule(rules[i].1).Ok? {
      RuleRoundTrip(rules[i].1);
    }
    EachRulePointwise(rules, UpRule);
    var up := EachRule(rules, UpRule).value;
    forall i | 0 <= i < |up| ensures DownRule(up[i].1) == Ok(rules[i].1) {
      RuleRoundTrip(rules[i].1);
    }
    EachRulePointwise(up, DownRule);
    assert EachRule(up, DownRule).value == rules;
  }

  /** What `down` does to a string-based document whose rules all pass. */
  lemma DownForm(doc: Doc, context: Doc, rules: Doc)
    requires Get(doc, "type") == Some(TypeStringBased) && Get(doc, "context") == Some(JObj(context))
    requires EachRule(context, DownRule) == Ok(rules)
    ensures Down(doc) == Ok(Del(Del(Put(doc, "rules", JObj(rules)), "context"), "type"))
  {
  }
}
