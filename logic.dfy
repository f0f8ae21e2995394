/**
 * The comparison and boolean rules of vakt/rules/logic.py.
 *
 * Each rule holds a constant `val` fixed at construction and answers
 * `satisfied(what, inquiry)` with a single Python comparison. Values are a
 * small model of Python's: integers, booleans (which compare as the
 * integers 0 and 1), strings, lists, tuples (a list never equals a tuple and
 * never compares with one), `None`, and zero-argument callables.
 */
module LogicRules {
  import opened Wrappers
  import Entities

  datatype Value =
    | VInt(i: int)
    | VBool(b: bool)
    | VStr(s: string)
    | VList(items: seq<Value>)
    | VTuple(items: seq<Value>)
    | VNone
    | VCall(id: nat, result: Value)   // a callable object, identified by `id`; calling it gives `result`

  /** A comparison that Python refuses between the given operands. */
  datatype RuleError = TypeError

  predicate IsNumber(v: Value) {
    v.VInt? || v.VBool?
  }

  function Num(v: Value): int
    requires IsNumber(v)
  {
    if v.VInt? then v.i else if v.b then 1 else 0
  }

  /** Python `a == b`. */
  predicate PyEq(a: Value, b: Value)
    decreases a
  {
    if IsNumber(a) && IsNumber(b) then Num(a) == Num(b)
    else if a.VStr? && b.VStr? then a.s == b.s
    else if (a.VList? && b.VList?) || (a.VTuple? && b.VTuple?) then
      |a.items| == |b.items| && forall i :: 0 <= i < |a.items| ==> PyEq(a.items[i], b.items[i])
    else if a.VNone? && b.VNone? then true
    else if a.VCall? && b.VCall? then a == b
    else false
  }

  datatype Op = Lt | Le | Gt | Ge

  function IntCmp(x: int, y: int, op: Op): bool {
    match op
    case Lt => x < y
    case Le => x <= y
    case Gt => x > y
    case Ge => x >= y
  }

  /** The first index at which two strings differ, or the shorter length. */
  function FirstCharDiff(x: string, y: string): (k: nat)
    ensures k <= |x| && k <= |y|
    ensures forall i :: 0 <= i < k ==> x[i] == y[i]
    ensures k < |x| && k < |y| ==> x[k] != y[k]
  {
    if x == [] || y == [] || x[0] != y[0] then 0 else 1 + FirstCharDiff(x[1..], y[1..])
  }

  /** Python string ordering: lexicographic by code point. */
  function StrCmp(x: string, y: string, op: Op): bool {
    var k := FirstCharDiff(x, y);
    if k == |x| || k == |y| then IntCmp(|x|, |y|, op) else IntCmp(x[k] as int, y[k] as int, op)
  }

  /** The first index at which two item lists differ under `==`, or the shorter length. */
  function FirstDiff(x: seq<Value>, y: seq<Value>): (k: nat)
    ensures k <= |x| && k <= |y|
    ensures forall i :: 0 <= i < k ==> PyEq(x[i], y[i])
    ensures k < |x| && k < |y| ==> !PyEq(x[k], y[k])
  {
    if x == [] || y == [] || !PyEq(x[0], y[0]) then 0 else 1 + FirstDiff(x[1..], y[1..])
  }

  /**
   * Python `a < b`, `a <= b`, `a > b`, `a >= b`. Lists (and tuples) are
   * ordered by their first pair of unequal items, or by length when one is a
   * prefix of the other; operands of unrelated types raise `TypeError`.
   */
  function Compare(a: Value, b: Value, op: Op): Result<bool, RuleError>
    decreases a
  {
    if IsNumber(a) && IsNumber(b) then Ok(IntCmp(Num(a), Num(b), op))
    else if a.VStr? && b.VStr? then Ok(StrCmp(a.s, b.s, op))
    else if (a.VList? && b.VList?) || (a.VTuple? && b.VTuple?) then
      var k := FirstDiff(a.items, b.items);
      if k == |a.items| || k == |b.items| then Ok(IntCmp(|a.items|, |b.items|, op))
      else Compare(a.items[k], b.items[k], op)
    else Err(TypeError)
  }

  /** Python `list(v)`; a string gives its one-character strings. */
  function ToList(v: Value): (r: Result<seq<Value>, RuleError>)
    ensures (v.VList? || v.VTuple?) ==> r == Ok(v.items)
    ensures v.VStr? ==> r.Ok? && |r.value| == |v.s| && forall i :: 0 <= i < |v.s| ==> r.value[i] == VStr([v.s[i]])
    ensures !(v.VList? || v.VTuple? || v.VStr?) ==> r == Err(TypeError)
  {
    if v.VList? || v.VTuple? then Ok(v.items)
    else if v.VStr? then Ok(seq(|v.s|, i requires 0 <= i < |v.s| => VStr([v.s[i]])))
    else Err(TypeError)
  }

  /** Python truthiness. */
  predicate Truthy(v: Value) {
    match v
    case VInt(i) => i != 0
    case VBool(b) => b
    case VStr(s) => s != ""
    case VList(xs) => xs != []
    case VTuple(xs) => xs != []
    case VNone => false
    case VCall(_, _) => true
  }

  datatype Rule =
    | Eq(val: Value)
    | NotEq(val: Value)
    | Greater(val: Value)
    | Less(val: Value)
    | GreaterOrEqual(val: Value)
    | LessOrEqual(val: Value)
    | IsTrue
    | IsFalse

  /** The operand `Eq` and `NotEq` compare with: a tuple `val` is first made a list. */
  function EqOperand(val: Value): Value {
    if val.VTuple? then VList(val.items) else val
  }

  /**
   * The ordering rules: when `what` is a tuple, `list(what)` is compared with
   * `list(self.val)` whatever `val` is; otherwise `what` with `val` directly.
   */
  function Ordered(op: Op, val: Value, what: Value): Result<bool, RuleError> {
    if what.VTuple? then
      match ToList(val)
      case Err(e) => Err(e)
      case Ok(l) => Compare(VList(what.items), VList(l), op)
    else Compare(what, val, op)
  }

  /** `BooleanRule`: a callable `what` is called first. */
  function Evaluated(what: Value): Value {
    if what.VCall? then what.result else what
  }

  /** `rule.satisfied(what, inquiry)`. */
  function Satisfied(rule: Rule, what: Value, inquiry: Entities.Inquiry): (r: Result<bool, RuleError>)
    ensures r.Err? ==> rule.Greater? || rule.Less? || rule.GreaterOrEqual? || rule.LessOrEqual?
    ensures r.Err? ==> !(IsNumber(what) && IsNumber(rule.val)) && !(what.VStr? && rule.val.VStr?)
  {
    match rule
    case Eq(v) => Ok(PyEq(EqOperand(v), what))
    case NotEq(v) => Ok(!PyEq(EqOperand(v), what))
    case Greater(v) => Ordered(Gt, v, what)
    case Less(v) => Ordered(Lt, v, what)
    case GreaterOrEqual(v) => Ordered(Ge, v, what)
    case LessOrEqual(v) => Ordered(Le, v, what)
    case IsTrue => Ok(Truthy(Evaluated(what)) == true)
    case IsFalse => Ok(Truthy(Evaluated(what)) == false)
  }

  // ----- equality -----

  /** A value with no booleans anywhere inside it. */
  predicate NoBool(v: Value)
    decreases v
  {
    match v
    case VBool(_) => false
    case VList(xs) => forall i :: 0 <= i < |xs| ==> NoBool(xs[i])
    case VTuple(xs) => forall i :: 0 <= i < |xs| ==> NoBool(xs[i])
    case VCall(_, r) => true
    case _ => true
  }

  /** Without booleans (which equal 0 and 1), Python `==` is structural equality. */
  lemma {:induction false} PyEqIsEquality(a: Value, b: Value)
    requires NoBool(a) && NoBool(b)
    ensures PyEq(a, b) <==> a == b
    decreases a
  {
    if (a.VList? && b.VList?) || (a.VTuple? && b.VTuple?) {
      if |a.items| == |b.items| {
        forall i | 0 <= i < |a.items| ensures PyEq(a.items[i], b.items[i]) <==> a.items[i] == b.items[i] {
          PyEqIsEquality(a.items[i], b.items[i]);
        }
        if PyEq(a, b) {
          assert a.items == b.items;
        }
      }
    }
  }

  /** Python `==` is reflexive on these values. */
  lemma {:induction false} PyEqReflexive(a: Value)
    ensures PyEq(a, a)
    decreases a
  {
    if a.VList? || a.VTuple? {
      forall i | 0 <= i < |a.items| ensures PyEq(a.items[i], a.items[i]) {
        PyEqReflexive(a.items[i]);
      }
    }
  }

  /** `Eq(val)` without booleans is satisfied exactly by `what == val`, a tuple `val` read as a list. */
  lemma EqIsEquality(val: Value, what: Value, inquiry: Entities.Inquiry)
    requires NoBool(val) && NoBool(what)
    ensures Satisfied(Eq(val), what, inquiry) == Ok(what == EqOperand(val))
  {
    PyEqIsEquality(EqOperand(val), what);
  }

  /** A tuple-valued `Eq` matches the list with the same items and never the tuple itself. */
  lemma EqTupleMatchesListOnly(items: seq<Value>, inquiry: Entities.Inquiry)
    ensures Satisfied(Eq(VTuple(items)), VList(items), inquiry) == Ok(true)
    ensures Satisfied(Eq(VTuple(items)), VTuple(items), inquiry) == Ok(false)
  {
    PyEqReflexive(VList(items));
  }

  /** `NotEq(val)` is the negation of `Eq(val)` for every `what`. */
  lemma NotEqNegatesEq(val: Value, what: Value, inquiry: Entities.Inquiry)
    ensures Satisfied(Eq(val), what, inquiry).Ok? && Satisfied(NotEq(val), what, inquiry).Ok?
    ensures Satisfied(NotEq(val), what, inquiry).value == !Satisfied(Eq(val), what, inquiry).value
  {
  }

  // ----- ordering -----

  function Flip(op: Op): Op {
    match op
    case Lt => Ge
    case Le => Gt
    case Gt => Le
    case Ge => Lt
  }

  /** Whether a comparison raises does not depend on the operator; `a op b` is `not (a flip(op) b)`. */
  lemma {:induction false} CompareComplement(a: Value, b: Value, op: Op)
    ensures Compare(a, b, op).Ok? == Compare(a, b, Flip(op)).Ok?
    ensures Compare(a, b, op).Ok? ==> Compare(a, b, op).value == !Compare(a, b, Flip(op)).value
    decreases a
  {
    if !(IsNumber(a) && IsNumber(b)) && !(a.VStr? && b.VStr?) && ((a.VList? && b.VList?) || (a.VTuple? && b.VTuple?)) {
      var k := FirstDiff(a.items, b.items);
      if k < |a.items| && k < |b.items| {
        CompareComplement(a.items[k], b.items[k], op);
      }
    }
  }

  /** For ordered `a` and `b`, `a == b` holds exactly when neither `a < b` nor `a > b`. */
  lemma {:induction false} CompareTrichotomy(a: Value, b: Value)
    requires Compare(a, b, Lt).Ok?
    ensures Compare(a, b, Gt).Ok?
    ensures PyEq(a, b) <==> !Compare(a, b, Lt).value && !Compare(a, b, Gt).value
    ensures !(Compare(a, b, Lt).value && Compare(a, b, Gt).value)
    decreases a
  {
    CompareComplement(a, b, Lt);
    CompareComplement(a, b, Le);
    if IsNumber(a) && IsNumber(b) {
    } else if a.VStr? && b.VStr? {
      var k := FirstCharDiff(a.s, b.s);
      if k == |a.s| && k == |b.s| {
        assert a.s == b.s;
      }
    } else {
      var k := FirstDiff(a.items, b.items);
      if k < |a.items| && k < |b.items| {
        CompareTrichotomy(a.items[k], b.items[k]);
      }
    }
  }

  /** `Greater(val)` is `not LessOrEqual(val)` and `Less(val)` is `not GreaterOrEqual(val)`, wherever they do not raise. */
  lemma OrderingRulesComplement(val: Value, what: Value, inquiry: Entities.Inquiry)
    ensures Satisfied(Greater(val), what, inquiry).Ok? == Satisfied(LessOrEqual(val), what, inquiry).Ok?
    ensures Satisfied(Greater(val), what, inquiry).Ok? ==>
      Satisfied(Greater(val), what, inquiry).value == !Satisfied(LessOrEqual(val), what, inquiry).value
    ensures Satisfied(Less(val), what, inquiry).Ok? == Satisfied(GreaterOrEqual(val), what, inquiry).Ok?
    ensures Satisfied(Less(val), what, inquiry).Ok? ==>
      Satisfied(Less(val), what, inquiry).value == !Satisfied(GreaterOrEqual(val), what, inquiry).value
  {
    if what.VTuple? {
      if ToList(val).Ok? {
        CompareComplement(VList(what.items), VList(ToList(val).value), Gt);
        CompareComplement(VList(what.items), VList(ToList(val).value), Lt);
      }
    } else {
      CompareComplement(what, val, Gt);
      CompareComplement(what, val, Lt);
    }
  }

  /**
   * When neither operand is a tuple and the comparison does not raise,
   * exactly one of `Less(val)`, `Eq(val)` and `Greater(val)` holds.
   */
  lemma ExactlyOneOfLessEqGreater(val: Value, what: Value, inquiry: Entities.Inquiry)
    requires !val.VTuple? && !what.VTuple?
    requires Satisfied(Less(val), what, inquiry).Ok?
    ensures Satisfied(Greater(val), what, inquiry).Ok?
    ensures var lt, eq, gt := Satisfied(Less(val), what, inquiry).value, Satisfied(Eq(val), what, inquiry).value,
                              Satisfied(Greater(val), what, inquiry).value;
      (lt && !eq && !gt) || (!lt && eq && !gt) || (!lt && !eq && gt)
  {
    CompareTrichotomy(what, val);
    PyEqSymmetric(what, val);
  }

  lemma {:induction false} PyEqSymmetric(a: Value, b: Value)
    ensures PyEq(a, b) == PyEq(b, a)
    decreases a
  {
    if (a.VList? && b.VList?) || (a.VTuple? && b.VTuple?) {
      if |a.items| == |b.items| {
        forall i | 0 <= i < |a.items| ensures PyEq(a.items[i], b.items[i]) == PyEq(b.items[i], a.items[i]) {
          PyEqSymmetric(a.items[i], b.items[i]);
        }
      }
    }
  }

  /** For integers, exactly one of `Less(v)`, `Eq(v)`, `Greater(v)` holds. */
  lemma IntegersTrichotomy(v: int, w: int, inquiry: Entities.Inquiry)
    ensures Satisfied(Less(VInt(v)), VInt(w), inquiry) == Ok(w < v)
    ensures Satisfied(Eq(VInt(v)), VInt(w), inquiry) == Ok(w == v)
    ensures Satisfied(Greater(VInt(v)), VInt(w), inquiry) == Ok(w > v)
  {
  }

  /**
   * With a tuple `what`, every ordering rule compares `list(what)` with
   * `list(val)`: a string `val` is split into its characters, and a `val`
   * that `list` refuses (a number, a boolean, `None`, a callable) raises
   * `TypeError`. For example `"ab"` is greater than `("b",)` as well as `"b"`.
   */
  lemma TupleWhatSplitsStringVal(s: string, items: seq<Value>, val: Value, inquiry: Entities.Inquiry)
    ensures Satisfied(Greater(VStr(s)), VTuple(items), inquiry) == Compare(VList(items), VList(ToList(VStr(s)).value), Gt)
    ensures Satisfied(Less(VStr(s)), VTuple(items), inquiry) == Compare(VList(items), VList(ToList(VStr(s)).value), Lt)
    ensures Satisfied(GreaterOrEqual(VStr(s)), VTuple(items), inquiry) == Compare(VList(items), VList(ToList(VStr(s)).value), Ge)
    ensures Satisfied(LessOrEqual(VStr(s)), VTuple(items), inquiry) == Compare(VList(items), VList(ToList(VStr(s)).value), Le)
    ensures !(val.VList? || val.VTuple? || val.VStr?) ==>
      Satisfied(Greater(val), VTuple(items), inquiry) == Err(TypeError) &&
      Satisfied(Less(val), VTuple(items), inquiry) == Err(TypeError) &&
      Satisfied(GreaterOrEqual(val), VTuple(items), inquiry) == Err(TypeError) &&
      Satisfied(LessOrEqual(val), VTuple(items), inquiry) == Err(TypeError)
    ensures Satisfied(Greater(VStr("ab")), VTuple([VStr("b")]), inquiry) == Ok(true)
    ensures Satisfied(Greater(VStr("ab")), VStr("b"), inquiry) == Ok(true)
  {
    var l := ToList(VStr("ab")).value;
    assert l == [VStr("a"), VStr("b")];
    assert FirstDiff([VStr("b")], l) == 0;
    assert FirstCharDiff("b", "a") == 0;
    assert FirstCharDiff("b", "ab") == 0;
  }

  /** A tuple `val` never compares with a list `what`: the tuple test looks at `what` only. */
  lemma TupleValAgainstListRaises(val: seq<Value>, what: seq<Value>, inquiry: Entities.Inquiry)
    ensures Satisfied(Greater(VTuple(val)), VList(what), inquiry) == Err(TypeError)
    ensures Satisfied(Less(VTuple(val)), VList(what), inquiry) == Err(TypeError)
  {
  }

  // ----- boolean rules -----

  /** For the same `what`, `IsTrue` holds exactly when `IsFalse` does not. */
  lemma IsTrueNegatesIsFalse(what: Value, inquiry: Entities.Inquiry)
    ensures Satisfied(IsTrue, what, inquiry).Ok? && Satisfied(IsFalse, what, inquiry).Ok?
    ensures Satisfied(IsTrue, what, inquiry).value == !Satisfied(IsFalse, what, inquiry).value
  {
  }

  /** A callable is called and its result tested; a non-callable is tested itself. */
  lemma BooleanRuleCallsCallable(id: nat, result: Value, what: Value, inquiry: Entities.Inquiry)
    requires !what.VCall?
    ensures Satisfied(IsTrue, VCall(id, result), inquiry) == Ok(Truthy(result))
    ensures Satisfied(IsTrue, what, inquiry) == Ok(Truthy(what))
    ensures Satisfied(IsFalse, what, inquiry) == Ok(!Truthy(what))
  {
  }

  /** No rule here reads the inquiry. */
  lemma InquiryIgnored(rule: Rule, what: Value, i1: Entities.Inquiry, i2: Entities.Inquiry)
    ensures Satisfied(rule, what, i1) == Satisfied(rule, what, i2)
  {
  }
}
