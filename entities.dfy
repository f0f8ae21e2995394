/**
 * The entities that the modelled files pass around but do not define
 * (policies, inquiries, checkers and the policy type markers); they live in
 * vakt/policy.py, vakt/guard.py and vakt/checker.py, which are not part of
 * this model. Only what the modelled code reads of them is kept.
 */
module Entities {
  import opened Documents

  /** A policy's unique identifier. */
  type Uid = string

  /** A stored policy: its uid and the rest of its attributes as a document. */
  datatype Policy = Policy(uid: Uid, attributes: Json)

  /** An inquiry: the subject, action and resource asked about, and its context. */
  datatype Inquiry = Inquiry(subject: Json, action: Json, resource: Json, context: seq<(string, Json)>)

  /** The classes of checker the storage layer distinguishes; `OtherKind` is any other class. */
  datatype CheckerKind = ExactKind | FuzzyKind | RegexKind | RulesKind | OtherKind

  /**
   * A checker object. Python hashes and compares checkers by identity, so two
   * checkers of the same class with different `id`s are different memo keys.
   */
  datatype Checker = Checker(kind: CheckerKind, id: nat)

  /** The policy type markers `TYPE_STRING_BASED` and `TYPE_RULE_BASED`. */
  const TypeStringBased: Json := JInt(1)
  const TypeRuleBased: Json := JInt(2)
}
