# vakt decision-engine core, modelled in Dafny

vakt is an attribute-based access-control library. Its policies are stored
in a *storage* and matched against an *inquiry* by *checkers*. This project
models four parts of it and proves what each promises:

- **The tagged-pattern compiler** (`vakt/compiler.py`, module `Compiler`).
  - `get_delimiter_indices` scans a phrase, tracking the nesting of start
    and end tags, and records an entry pair for every outermost hole. It
    raises when the tags are unbalanced.
  - `compile_regex` is modelled as written, behind its 512-entry memo: it
    re-raises the scanner's error, returns `None` for a phrase without holes,
    and raises `TypeError` for any phrase with a hole. The pattern the code
    evidently intends is a separate definition with its own memoized method
    (see Findings).
- **The comparison and boolean rules** (`vakt/rules/logic.py`, module
  `LogicRules`):
  - `Eq`, `NotEq`, `Greater`, `Less`, `GreaterOrEqual` and `LessOrEqual`;
  - `BooleanRule` with `IsTrue` and `IsFalse`.

  They are evaluated over a model of Python values in which:
  - booleans equal the integers 0 and 1;
  - a list never equals a tuple and never compares with one;
  - lists and strings order lexicographically;
  - comparing unrelated types raises `TypeError`.
- **The caches** (`vakt/cache.py`, module `Cache`).
  - `EnfoldCache` fronts a primary storage with a cache storage. It can warm
    up from the primary, writes through to both tiers, and reads through the
    cache. The constructor's warm-up is modelled as written, advancing the
    offset by 1. A second constructor advances it by the page size, as
    evidently intended (see Findings).
  - `GuardCache` memoizes `find_for_inquiry` behind a `stale` flag.
  - Both are written against the storage contract, modelled by the
    `Storages.Store` class: one list-returning in-memory backend whose calls
    can be set to fail.
- **The pure parts of the MongoDB storage** (`vakt/storage/mongo.py`).
  - Module `MongoQuery` models the query filter built for each checker
    class. It includes a small evaluator for the fragment of the MongoDB
    query language those filters use, so that what a filter selects can be
    stated.
  - Module `MongoMigration` models the document rewrite of the 1.1.1 → 1.2.0
    migration in both directions.

How the model is laid out:
- Documents (BSON / Python dicts) are `Documents.Json` values whose objects
  are ordered field lists, as a Python dict iterates.
- Policies, inquiries and checkers are reduced to what the modelled code
  reads of them (module `Entities`).

Where the source loops or mutates, the model does too:
- `GetDelimiterIndices`, the cache classes, the query builder loop and the
  two migration closures are methods.
- Each such method is proved equal to a specification function.
- The source's properties are then proved about those functions.

## Model

| member | source | states |
|---|---|---|
| Compiler.GetDelimiterIndices | vakt/compiler.py:27-46 | Raises `Unbalanced(phrase)` exactly when some prefix closes more tags than it opened, or the phrase ends inside a hole. Otherwise it returns the entry list of `Entries`. |
| Compiler.EntriesArePairs | vakt/compiler.py:39-41 | The entry list has even length. Even positions hold the start tag, odd positions hold numbers. |
| Compiler.EntriesRecordTopLevelCloses | vakt/compiler.py:37-41 | Every number is two past the 0-based index of a close that returns the level to zero. The numbers strictly increase. Every such close is recorded. |
| Compiler.BalancedEntriesEmptyIffTagFree | vakt/compiler.py:29-46 | For a balanced phrase, the entry list is empty exactly when the phrase has no start tag character. |
| Compiler.TagFreeYieldsNoEntries | vakt/compiler.py:29-46 | A phrase without start tags is accepted with an empty list. |
| Compiler.SameTagsRejected | vakt/compiler.py:33-43 | When both tags are the same character, the start test wins. Any phrase containing that character is rejected as unbalanced. |
| Compiler.CompileRegexOutcomes | vakt/compiler.py:9-24 | `compile_regex` has three outcomes: the scanner's error re-raised, `None` for a phrase without holes, or `TypeError` whenever a hole exists. |
| Compiler.CompileOutcome | vakt/compiler.py:9-24 | `compile_regex` as written never returns a compiled pattern: its only successful result is `None`. |
| Compiler.CompileRegex | vakt/compiler.py:7-24 | Behind the memo, every call returns what `compile_regex` as written returns or raises. A hit leaves the table unchanged. A raised error is never remembered. A phrase without holes is remembered as `None` whenever the memo can hold an entry. Every remembered value stays a true outcome. |
| Compiler.CompileIntended | vakt/compiler.py:7-24 | The corrected `compile_regex` behind the same memo: every call returns the intended outcome, the scanner's `Unbalanced` error or the anchored pattern. A hit or an error leaves the table unchanged, and every remembered value stays an intended outcome. |
| Compiler.NewCompileMemo | vakt/compiler.py:7 | The memo starts empty with `maxsize` 512. |
| Compiler.AsWrittenFailsWhereIntendedBuilds | vakt/compiler.py:15-16 | For every balanced phrase with a hole, the code raises, while the intended construction yields a pattern with at least one group. |
| Compiler.CompileRegexHoleCounterexample | vakt/compiler.py:15-16 | `compile_regex("<a>", "<", ">")` raises instead of building `^(a)$`, i.e. segments `"", (a), ""`. |
| Compiler.IntendedRoundTrip | vakt/compiler.py:15-24 | The intended pattern of a balanced phrase renders back to the phrase. It alternates literals and groups, starting and ending with a literal. It has one group per entry pair. |
| Memo.LruMemo.Lookup | vakt/cache.py:101 | A remembered key returns its value. Any other key is a miss. |
| Memo.LruMemo.Remember | vakt/cache.py:101 | The table stays within `maxsize`. `maxsize` 0 or below remembers nothing, and `None` is unbounded. Otherwise the new key maps to the value, and while the table has room nothing is evicted. No other entry changes except by eviction. |
| LogicRules.Satisfied | vakt/rules/logic.py:21-120 | Only the four ordering rules can raise. They never raise for two numbers or two strings. |
| LogicRules.EqIsEquality | vakt/rules/logic.py:21-26 | Without booleans, `Eq(val)` holds exactly when `what` equals `val`, a tuple `val` read as a list. |
| LogicRules.PyEqIsEquality | vakt/rules/logic.py:26 | Python `==` on bool-free values is structural equality, in both directions. |
| LogicRules.EqTupleMatchesListOnly | vakt/rules/logic.py:22-26 | A tuple-valued `Eq` matches the list with the same items but not the tuple itself. |
| LogicRules.NotEqNegatesEq | vakt/rules/logic.py:35-40 | `NotEq(val)` never raises and is always the negation of `Eq(val)`. |
| LogicRules.CompareComplement | vakt/rules/logic.py:49-88 | Whether a comparison raises does not depend on the operator. `a > b` is `not a <= b`, and `a < b` is `not a >= b`. |
| LogicRules.OrderingRulesComplement | vakt/rules/logic.py:49-88 | `Greater` and `LessOrEqual` raise together, and otherwise disagree. The same holds for `Less` and `GreaterOrEqual`. |
| LogicRules.CompareTrichotomy | vakt/rules/logic.py:51-64 | For values that compare, `==` holds exactly when neither `<` nor `>` does, and `<` and `>` never both hold. |
| LogicRules.ExactlyOneOfLessEqGreater | vakt/rules/logic.py:21-64 | For non-tuple operands that compare, exactly one of `Less(val)`, `Eq(val)` and `Greater(val)` holds. |
| LogicRules.IntegersTrichotomy | vakt/rules/logic.py:43-64 | On integers, `Less`, `Eq` and `Greater` are `<`, `=` and `>`. |
| LogicRules.TupleWhatSplitsStringVal | vakt/rules/logic.py:49-88 | With a tuple `what`, each of `Greater`, `Less`, `GreaterOrEqual` and `LessOrEqual` compares the tuple's items with `list(val)`. A string `val` is compared as its list of one-character strings. Any `val` that is not a list, tuple or string raises `TypeError`. |
| LogicRules.TupleValAgainstListRaises | vakt/rules/logic.py:50-52 | The tuple test looks only at `what`, so a tuple `val` against a list `what` raises `TypeError`. |
| LogicRules.IsTrueNegatesIsFalse | vakt/rules/logic.py:99-120 | `IsTrue` and `IsFalse` never raise and always disagree. |
| LogicRules.BooleanRuleCallsCallable | vakt/rules/logic.py:99-101 | A callable `what` is called and the truthiness of its result decides. Otherwise the truthiness of `what` itself decides. |
| LogicRules.InquiryIgnored | vakt/rules/logic.py:21-101 | No rule's outcome depends on the inquiry. |
| Storages.Store.Add | vakt/cache.py:37-40 | `add` raises `PolicyExists` for a known uid, or the configured fault. Otherwise it appends the policy, keeping uids unique. |
| Storages.Store.GetAll | vakt/cache.py:25 | `get_all` raises `InvalidPagination` for a limit that is not positive or a negative offset. Otherwise it returns the slice `[offset:offset + limit]`. It leaves the policies unchanged and counts one page read in the storage's read log. |
| Storages.Store.Update | vakt/cache.py:74-77 | `update` raises `PolicyUpdate` for an unknown uid. Otherwise it replaces the policy where it stands. |
| Storages.Store.Delete | vakt/cache.py:84-87 | `delete` removes the uid. An unknown uid is no error. |
| Storages.Page | vakt/cache.py:25 | A page has at most `limit` policies, namely the ones from `offset` on. It is empty exactly when `offset` is past the end. |
| Storages.PagesTile | vakt/cache.py:25-30 | Two consecutive pages of one size are the page of twice the size, so pages must advance by the page size. |
| Storages.AddThenGet | vakt/cache.py:37-40 | After a successful add, the policy is found under its uid. Every other uid reads as before. |
| Storages.UpdateThenGet | vakt/cache.py:74-77 | After an update, the new version is found. Every other uid reads as before. |
| Storages.DeleteThenGet | vakt/cache.py:84-87 | After a delete, the uid is gone. Every other uid reads as before. |
| Storages.OutcomesKeepUnique | vakt/cache.py:32-87 | Add, update and delete keep uids unique. |
| Cache.WarmUpGrows | vakt/cache.py:22-30 | The warm-up only grows the cache: its old contents stay a prefix. |
| Cache.WarmUpAddsFromPrimary | vakt/cache.py:22-30 | Every policy the warm-up adds to the cache is one of the primary's. |
| Cache.WarmUpLoop | vakt/cache.py:22-30 | The `while True` loop, advancing the offset by a given stride, ends with the outcome and cache contents of `WarmUp`. |
| Cache.Open | vakt/cache.py:19-30 | As written. Without `init`, the primary's `get_all` is never called and the cache is untouched. With `init`, nothing of the primary but its read log may change, and the outcome and the cache's contents are those of the warm-up advancing the offset by 1. Warming an empty cache without faults from a primary with unique uids succeeds exactly when the primary holds at most one policy; with two or more it raises `PolicyExists` for the second. |
| Cache.OpenByBatch | vakt/cache.py:19-30 | The corrected constructor, advancing the offset by the page size. Without `init`, the primary's `get_all` is never called. With no faults and uids unique across both tiers, the cache ends as its old contents followed by every primary policy. |
| Cache.AddAll | vakt/cache.py:28-29 | Adding a page policy by policy leaves the storage as `AddEach` says: every policy appended in order, or stopped at the first failing add with that error. |
| Cache.AddEachStopsAtError | vakt/cache.py:28-29 | Once an add of a page fails, the rest of the page is not added. |
| Cache.WarmUpAsWrittenRejectsSecondPage | vakt/cache.py:22-30 | With two or more policies, the page at offset 1 starts with a policy the first page already cached. The warm-up ends in `PolicyExists` for the second policy, with the cache holding the first page. |
| Cache.WarmUpAsWrittenSucceedsIff | vakt/cache.py:22-30 | As written, warming an empty cache succeeds exactly when the primary holds at most one policy. |
| Cache.WarmUpByBatchCopiesPrimary | vakt/cache.py:22-30 | Advancing the offset by the page size copies every policy from the offset on into the cache, in order. |
| Cache.WarmUpByBatchFromEmpty | vakt/cache.py:22-30 | The corrected warm-up leaves an empty cache equal to the primary. |
| Cache.EnfoldAdd | vakt/cache.py:32-40 | Each tier is left as it was or has the policy appended. Success means the cache gained the policy, and, when the primary has no fault configured, the primary holds its uid. |
| Cache.EnfoldUpdate | vakt/cache.py:69-77 | Each tier is left as it was or has the policy replaced. Success means the cache held the uid and now holds the new version. |
| Cache.EnfoldDelete | vakt/cache.py:79-87 | Each tier is left as it was or has the uid removed. Success means the cache no longer holds the uid. |
| Cache.EnfoldGet | vakt/cache.py:42-49 | A found policy has the uid and comes from one of the tiers, and it is the cache's whenever the cache holds the uid. `None` means neither tier holds it. |
| Cache.EnfoldGetAll | vakt/cache.py:51-58 | A returned page is valid pagination, at most `limit` long, and is the cache's page or the primary's. An empty answer means both pages are empty. |
| Cache.EnfoldFind | vakt/cache.py:60-67 | Every candidate comes from one of the tiers. An empty answer means both tiers found nothing. |
| Cache.EnfoldCache.Add | vakt/cache.py:32-40 | Writes to the primary and then the cache. Only the primary's `PolicyExists` is ignored, and any other primary error leaves the cache untouched. |
| Cache.EnfoldCache.Get | vakt/cache.py:42-49 | Returns the cache's policy when it has one, otherwise the primary's answer. |
| Cache.EnfoldCache.GetAll | vakt/cache.py:51-58 | Returns the cache's page when it is not empty, otherwise the primary's page. The primary is paged only when the cache's page is empty, and neither tier's policies change. |
| Cache.EnfoldCache.FindForInquiry | vakt/cache.py:60-67 | Returns the cache's candidates when there are any, otherwise the primary's. |
| Cache.EnfoldCache.Update | vakt/cache.py:69-77 | Only the primary's `PolicyUpdate` and `PolicyCreation` are ignored before the cache is updated. |
| Cache.EnfoldCache.Delete | vakt/cache.py:79-87 | Only the primary's `PolicyDeletion` is ignored before the cache deletes. |
| Cache.WritesPropagateOtherPrimaryErrors | vakt/cache.py:32-87 | A primary error that a write does not ignore becomes the outcome. Neither tier changes. |
| Cache.GetAgreesWhenMirrored | vakt/cache.py:42-49 | While every cached policy is the primary's policy under that uid, `get` answers exactly what the primary would. |
| Cache.AddKeepsMirror | vakt/cache.py:32-40 | Adding a policy the primary lacks, or holds unchanged, keeps the cache a mirror of the primary. |
| Cache.AddOverOlderVersionDiverges | vakt/cache.py:36-40 | Ignoring `PolicyExists` caches a new version while the primary keeps the old one, so the tiers disagree on that uid. |
| Cache.UpdateKeepsMirror | vakt/cache.py:69-77 | A fault-free update through both tiers keeps the cache a mirror. |
| Cache.DeleteKeepsMirror | vakt/cache.py:79-87 | A fault-free delete keeps the cache a mirror and removes the uid from both tiers. |
| Cache.ListsAgreeWhenEqual | vakt/cache.py:51-67 | When both tiers hold the same policies, `get_all` and `find_for_inquiry` answer as the primary. |
| Cache.ReadsFallBackOnEmpty | vakt/cache.py:42-58 | An empty cache passes `get` to the primary. It also passes `get_all` to the primary, except that the cache's own `InvalidPagination` is raised first. |
| Cache.GuardCache.constructor | vakt/cache.py:98-101 | A new guard cache is stale, its memo is empty, and no storage call has been made. |
| Cache.NewGuardCache | vakt/cache.py:98 | The default `maxsize` is 1024. |
| Cache.GuardCache.Get | vakt/cache.py:103-106 | While stale, returns `False` without calling the storage. A remembered pair is served without a call. Otherwise it makes one storage call and remembers its result, but not an error; with room in the memo nothing else is evicted, and no other entry ever changes its value. After a success the pair is remembered with the answer served, unless `maxsize` is 0. A memo that agrees with the storage stays in agreement, and then every answer is the storage's. |
| Cache.RepeatedLookup | vakt/cache.py:101-105 | Two equal lookups return the same answer, which is the storage's. After a success they make at most one storage call in all. |
| Cache.LookupWithin | vakt/cache.py:101-105 | One lookup while the memo has room: the storage's answer, the pair added to the remembered keys, and one storage call exactly when the pair was not remembered before. |
| Cache.LookupRun | vakt/cache.py:101-105 | A run of lookups over pairs that fit in the memo answers each with the storage's result, and makes exactly one storage call per distinct pair not remembered before the run. |
| MongoQuery.BuildStringQuery | vakt/storage/mongo.py:98-115 | The append loop builds exactly the string query. |
| MongoQuery.CondFieldNames | vakt/storage/mongo.py:105-110 | Stripping `s` from `actions`, `subjects` and `resources` names the inquiry's `action`, `subject` and `resource`. |
| MongoQuery.RStrip | vakt/storage/mongo.py:110 | `rstrip` removes exactly the trailing run of the character. |
| MongoQuery.StringQuery | vakt/storage/mongo.py:98-115 | The string query never fails. It is a single `$and` whose list holds one clause more than there are condition fields. |
| MongoQuery.StringQueryShape | vakt/storage/mongo.py:98-115 | The query is `$and` of "type is string-based" and one `$elemMatch` per condition field, with the inquiry's attribute for that field. |
| MongoQuery.StringQueryMatches | vakt/storage/mongo.py:98-115 | A document matches exactly when it is string-based and each condition field is an array with an element matching the inquiry's attribute. |
| MongoQuery.CreateFilter | vakt/storage/mongo.py:77-96 | A missing checker gives `{}`. A checker of any other class raises `UnknownCheckerType`. |
| MongoQuery.BuildFilter | vakt/storage/mongo.py:77-96 | The dispatch, with string queries from the loop, returns exactly `CreateFilter`. |
| MongoQuery.FilterSelects | vakt/storage/mongo.py:77-96 | What each checker's filter selects. Exact: string-based policies listing the inquiry's action, subject and resource verbatim. Fuzzy: the same under `$regex`. Regex and rules checkers: every policy of their type. No checker: every policy. |
| MongoQuery.FilterSeparatesTypes | vakt/storage/mongo.py:81-91 | A selected document is rule-based exactly when the checker is the rules checker. |
| MongoQuery.ExactAndFuzzyDifferInOperatorOnly | vakt/storage/mongo.py:81-84 | The fuzzy checker gets the `$regex` query and the exact checker the `$eq` one. Both always succeed. |
| MongoMigration.Renaming | vakt/storage/mongo.py:306-314 | A rename is found exactly when some entry of `rules_rename` has the rule type on its old side (up) or its new side (down). |
| MongoMigration.RenameType | vakt/storage/mongo.py:326-329 | The rename loop with `break` picks the first matching entry. |
| MongoMigration.RenameInverse | vakt/storage/mongo.py:306-314 | Renaming down undoes renaming up. No new name is refused by `down`. |
| MongoMigration.UpRule | vakt/storage/mongo.py:325-329 | A rule survives `up` exactly when it has a `py/object`. The rewritten rule still has one, a string exactly when the old one was. |
| MongoMigration.DownRule | vakt/storage/mongo.py:342-353 | A rule survives `down` only if its type, read before renaming, is a string that exists in 1.1.1. The result's type is a string. The only `KeyError` is a missing `py/object`. |
| MongoMigration.UpOne | vakt/storage/mongo.py:325-330 | One rule through `up`'s loop body is exactly `UpRule`: a rule without `py/object` raises `KeyError`, and otherwise the first matching rename applies. |
| MongoMigration.DownOne | vakt/storage/mongo.py:342-353 | One rule through `down`'s loop body is exactly `DownRule`: the rename back, then `AttributeError` for a non-string type and `Irreversible` for a 1.2.0-only type, both judged on the type read before renaming. |
| MongoMigration.UpRules | vakt/storage/mongo.py:324-330 | The loop over `doc['rules']` gives the rules in order, each rewritten, or the first rule's error. |
| MongoMigration.DownRules | vakt/storage/mongo.py:341-353 | The loop over `doc['context']` gives the rules in order, each renamed back, or the first rule's error. |
| MongoMigration.NewNamesDistinct | vakt/storage/mongo.py:306-314 | No two entries of `rules_rename` share a 1.2.0 name, so renaming back is unambiguous. |
| MongoMigration.ProcessUp | vakt/storage/mongo.py:321-332 | The `up` closure's steps yield exactly `Up`. |
| MongoMigration.ProcessDown | vakt/storage/mongo.py:337-357 | The `down` closure's steps yield exactly `Down`. |
| MongoMigration.EachRule | vakt/storage/mongo.py:324-353 | A successful rule loop keeps the number of rules and each rule's name, in order. |
| MongoMigration.EachRuleStops | vakt/storage/mongo.py:324-353 | The first failing rule's error is the loop's outcome. |
| MongoMigration.EachRulePointwise | vakt/storage/mongo.py:324-353 | The rule loop succeeds exactly when every rule does, and then rewrites every rule where it stands. |
| MongoMigration.Up | vakt/storage/mongo.py:321-332 | After a successful `up`, `type` is string-based, `rules` is gone, and `context` is a dict. |
| MongoMigration.UpSucceedsIff | vakt/storage/mongo.py:321-332 | `up` succeeds exactly when `rules` is a dict whose every rule has a `py/object`. It raises `KeyError` without `rules`. |
| MongoMigration.UpResult | vakt/storage/mongo.py:321-332 | After `up`: `type` is string-based and `rules` is gone. `context` holds the same rules under the same names, each rewritten by the rule step. Every other field is unchanged. |
| MongoMigration.UpRuleRenames | vakt/storage/mongo.py:324-329 | An up-migrated rule's class is its 1.2.0 name, or its old type when `rules_rename` has none. Its other fields are unchanged. |
| MongoMigration.DownRefusesOtherTypes | vakt/storage/mongo.py:339-340 | `down` raises `Irreversible` for a document that is not string-based. |
| MongoMigration.DownRefusesNewRules | vakt/storage/mongo.py:341-353 | `down` raises `Irreversible` for a rule type from the list, logic or operator modules, or `StartsWith`, `EndsWith` or `Contains`. The type is read before renaming back. |
| MongoMigration.Down | vakt/storage/mongo.py:337-357 | A successful `down` needs a string-based `type`. The result has neither `type` nor `context`, and its `rules` is a dict. |
| MongoMigration.DownSucceedsIff | vakt/storage/mongo.py:337-357 | `down` succeeds exactly on string-based documents whose `context` is a dict of rules with string types that exist in 1.1.1. |
| MongoMigration.RuleRoundTrip | vakt/storage/mongo.py:324-346 | Up then down gives every rule of a 1.1.1 class back unchanged. |
| MongoMigration.DownUndoesUp | vakt/storage/mongo.py:321-357 | `down(up(doc))` equals `doc` as a dict, for any document with no `type` or `context` field whose rules are all of 1.1.1 classes. |
| Documents.Put | vakt/storage/mongo.py:323 | `d[k] = v` makes `k` read `v`. Every other key reads as before. |
| Documents.Del | vakt/storage/mongo.py:331 | `del d[k]` makes `k` absent. Every other key reads as before. |

## Left out

- Regular-expression text, `re.escape` and `re.compile`. The intended pattern is modelled as its segments, and `Render` writes it back as the phrase. `regex_vars` (vakt/compiler.py:19-21) is never reached, because line 16 already raises.
- LRU eviction order of `functools.lru_cache`. When the table is full, some entry is evicted, and which one is not modelled.
- Memo.LruMemo.Remember: does not say which entry is evicted, because the eviction order is a library internal.
- Cache.RepeatedLookup: bounds the storage calls only when the first lookup succeeds and the memo can hold an entry. An error is never remembered, so the same error is fetched again.
- The storage backends. vakt/storage/memory.py is not part of this model. `Storages.Store` models a backend whose `get_all` and `find_for_inquiry` return lists, with:
  - insertion-order pages;
  - a selector as its `find_for_inquiry` pre-filter;
  - per-call faults.
- Generator-returning backends such as `MongoStorage`. Its `get_all` and `find_for_inquiry` (vakt/storage/mongo.py:55-63) return generators, and a generator is always truthy. Against such a backend:
  - the warm-up's `if not policies` test (vakt/cache.py:26-27) never ends the loop, as written or by page size;
  - `EnfoldCache.get_all` and `find_for_inquiry` (vakt/cache.py:56, 65) never fall back to the primary;
  - `GuardCache` remembers a generator, which yields nothing once it has been consumed.

  The warm-up results, Cache.ReadsFallBackOnEmpty, Cache.ListsAgreeWhenEqual, Cache.RepeatedLookup and Cache.LookupRun therefore hold for list-returning backends only.
- Cache.LookupRun: counts storage calls only for a storage whose `find_for_inquiry` has no fault configured and for pairs that all fit in the memo together. Without that, errors are fetched again and evicted pairs are looked up again, and which pair is evicted is not modelled.
- The I/O half of `MongoStorage` is not modelled: `add`, `get`, `get_all`, `find_for_inquiry`, `update`, `delete`, document conversion, `_each_doc`, index creation and logging.
- MongoDB's `$regex` matching. The filter evaluator takes the matcher as a parameter.
- MongoDB's "an array field equals any of its elements" rule for plain equality. A plain equality clause compares whole values.
- Partial in-place mutation when a migration closure raises. The model returns the error and no document, whereas Python leaves `type` already set and the earlier rules already renamed.
- The values of `TYPE_STRING_BASED` and `TYPE_RULE_BASED`. vakt/policy.py is not part of this model; they are taken to be 1 and 2.
- The migration's type test models Python's `True == 1`. A float `1.0` is not modelled.
- Python values other than integers, booleans, strings, lists, tuples, `None` and zero-argument callables. Left out:
  - floats, dicts and sets;
  - objects with their own comparison methods;
  - callables that raise or take arguments.

  A callable is a deterministic thunk identified by an id.
- Checker and callable identity is modelled by an `id`. Inquiries are memo keys by value, and how `Inquiry` hashes is not part of this model.
- The same storage object serving as both tiers of an `EnfoldCache` (aliasing). It is excluded by the `primary != cache` requirement, and two storages sharing one read log by `primary.log != cache.log`.
- Cache.Open and Cache.OpenByBatch: how many pages the warm-up reads is not stated. Only the case without `init`, where none is read, is.
- Who clears `GuardCache.stale`. The class has no method for it: its owner assigns the field, and so does a Dafny caller.
- Concurrency and thread safety of both caches and of the compiler memo.
- Policies, checkers, the guard and the inquiry rules. Their source files are not part of this model, so only what the modelled code reads of them is kept.

## Findings

| source | as written | input that shows it | evidently intended | confidence | as-written member | corrected member |
|---|---|---|---|---|---|---|
| vakt/compiler.py:15-16 | `for i in idxs[::2]` iterates over the entries, the start tags, and indexes the list with them, so any phrase with a hole raises `TypeError` | `compile_regex("<a>", "<", ">")` | an anchored pattern of literal and group segments, one group per outermost hole (`^(a)$`) | not executed; high | Compiler.CompileRegexHoleCounterexample | Compiler.IntendedRoundTrip |
| vakt/cache.py:30 | the warm-up advances `offset` by 1, so with slicing pagination the second page repeats the first page's second policy, and `cache.add` raises `PolicyExists` | a primary holding two policies, `init=True`, an empty cache | advance `offset` by the page size, 10000, and copy the primary once | not executed; high for slicing backends such as the in-memory storage | Cache.WarmUpAsWrittenRejectsSecondPage | Cache.WarmUpByBatchCopiesPrimary |

The members named after the source model the code as written. `Compiler.CompileRegex` memoizes `Compiler.CompileOutcome`. `Cache.Open` runs `Cache.WarmUpLoop` with stride 1, so its outcome is `Cache.WarmUp` with stride 1. The corrected behaviour has its own members:
- `Compiler.Intended`, memoized by `Compiler.CompileIntended`;
- `Cache.WarmUp` with the page size as its stride, run by `Cache.OpenByBatch`.

The round-trip and copy properties are proved about those corrected definitions.
