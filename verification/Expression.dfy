/** uconfig's dependency expressions: a postfix evaluator that recurs into the options it names. */
module Expression {
  import opened Wrappers

  datatype Basic = Bool(b: bool) | Int(v: int) | Text(s: string)
  datatype Value = Null | Scalar(basic: Basic) | Selection(selected: nat, values: seq<Basic>)

  datatype Token =
    | Add | Sub | And | Or | Equ | NotEqu | Gt | Lt | GtEqu | LtEqu | Not
    | Literal(basic: Basic) | Identifier(name: string) | Unknown

  datatype ConfigOption = ConfigOption(name: string, current: Value, depends: Option<seq<Token>>)
  datatype Namespace = Namespace(index: map<string, nat>, options: seq<ConfigOption>)

  datatype Result = Passed | Failed | InvalidExpression | CircularExpression

  // Integers are 64 bits wide.
  const MIN: int := -0x8000_0000_0000_0000
  const MAX: int := 0x7FFF_FFFF_FFFF_FFFF

  // What the parser leaves behind: names point at options, options that depend on something are
  // told apart by their names, and a selection has selected one of its values.
  ghost predicate Parsed(ns: Namespace) {
    && (forall n :: n in ns.index ==> ns.index[n] < |ns.options|)
    && (forall i, j :: 0 <= i < j < |ns.options| && ns.options[i].depends.Some? && ns.options[j].depends.Some? ==>
          ns.options[i].name != ns.options[j].name)
    && (forall i :: 0 <= i < |ns.options| && ns.options[i].current.Selection? ==>
          ns.options[i].current.selected < |ns.options[i].current.values|)
  }

  function ToBasic(v: Value): Basic {
    match v
    case Null => Bool(false)
    case Scalar(b) => b
    case Selection(k, vs) => if k < |vs| then vs[k] else Bool(false)
  }

  // ---- one operator ----

  function AsInt(b: Basic): Option<int> {
    match b
    case Int(v) => Some(v)
    case Bool(x) => Some(if x then 1 else 0)
    case Text(_) => None
  }

  function AsBool(b: Basic): bool {
    match b
    case Bool(x) => x
    case Int(v) => v != 0
    case Text(s) => s != ""
  }

  function Checked(v: int): Option<Basic> {
    if MIN <= v <= MAX then Some(Int(v)) else None
  }

  function Same(lhs: Basic, rhs: Basic): Option<bool> {
    match (lhs, rhs)
    case (Bool(a), Text(b)) => Some(a == (b != ""))
    case (Text(a), Bool(b)) => Some((a != "") == b)
    case (Text(a), Text(b)) => Some(a == b)
    case (Int(_), Text(_)) => None
    case (Text(_), Int(_)) => None
    case (_, _) => Some(AsInt(lhs) == AsInt(rhs))
  }

  // None for an invalid operation.
  function Binary(t: Token, lhs: Basic, rhs: Basic): Option<Basic> {
    match t
    case And => Some(Bool(AsBool(lhs) && AsBool(rhs)))
    case Or => Some(Bool(AsBool(lhs) || AsBool(rhs)))
    case Equ => (match Same(lhs, rhs) case Some(e) => Some(Bool(e)) case None => None)
    case NotEqu => (match Same(lhs, rhs) case Some(e) => Some(Bool(!e)) case None => None)
    case _ =>
      match (AsInt(lhs), AsInt(rhs))
      case (Some(a), Some(b)) =>
        (match t
         case Add => Checked(a + b)
         case Sub => Checked(a - b)
         case Gt => Some(Bool(a > b))
         case Lt => Some(Bool(a < b))
         case GtEqu => Some(Bool(a >= b))
         case LtEqu => Some(Bool(a <= b))
         case _ => None)
      case (_, _) => None
  }

  // Complement of an integer's bits, of a truth value, emptiness of a string.
  function Complement(b: Basic): Basic {
    match b
    case Int(v) => Int(-v - 1)
    case Bool(x) => Bool(!x)
    case Text(s) => Bool(s == "")
  }

  // The stack after any token but a name; its top is its last element.
  function Apply(t: Token, stack: seq<Basic>): Option<seq<Basic>> {
    match t
    case Literal(b) => Some(stack + [b])
    case Not => if stack == [] then None else Some(stack[..|stack| - 1] + [Complement(stack[|stack| - 1])])
    case Unknown => None
    case Identifier(_) => None
    case _ =>
      if |stack| < 2 then None
      else match Binary(t, stack[|stack| - 2], stack[|stack| - 1])
        case Some(b) => Some(stack[..|stack| - 2] + [b])
        case None => None
  }

  ghost predicate InRange(b: Basic) {
    b.Int? ==> MIN <= b.v <= MAX
  }

  // No operator leaves the 64-bit range.
  lemma ApplyInRange(t: Token, stack: seq<Basic>)
    requires forall b :: b in stack ==> InRange(b)
    requires t.Literal? ==> InRange(t.basic)
    ensures Apply(t, stack).Some? ==> forall b :: b in Apply(t, stack).value ==> InRange(b)
  {
    if t.Not? && stack != [] {
      assert stack[|stack| - 1] in stack;
    }
  }

  function Verdict(stack: seq<Basic>): Result {
    if stack == [] then InvalidExpression
    else match stack[|stack| - 1]
      case Bool(true) => Passed
      case Bool(false) => Failed
      case _ => InvalidExpression
  }

  // ---- what an option is worth ----

  function Names(ns: Namespace): set<string> {
    set o | o in ns.options :: o.name
  }

  lemma FewerLeft(all: set<string>, path: set<string>, x: string)
    requires x in all && x !in path
    ensures |all - (path + {x})| < |all - path|
  {
    assert all - path == (all - (path + {x})) + {x};
  }

  // Whether option i may be set, when the options named in `path` are being evaluated around it.
  function Valid(ns: Namespace, i: nat, path: set<string>): Result
    requires i < |ns.options|
    decreases |Names(ns) - path|, 0
  {
    var o := ns.options[i];
    if o.depends.None? then Passed
    else if o.name in path then CircularExpression
    else
      assert o in ns.options;
      FewerLeft(Names(ns), path, o.name);
      Evaluated(ns, o.depends.value, [], path + {o.name})
  }

  function Evaluated(ns: Namespace, ts: seq<Token>, stack: seq<Basic>, path: set<string>): Result
    decreases |Names(ns) - path|, |ts| + 1
  {
    if ts == [] then Verdict(stack)
    else if ts[0].Identifier? then
      if ts[0].name !in ns.index || ns.index[ts[0].name] >= |ns.options| then InvalidExpression
      else
        var j := ns.index[ts[0].name];
        match Valid(ns, j, path)
        case Passed => Evaluated(ns, ts[1..], stack + [ToBasic(ns.options[j].current)], path)
        case Failed => Evaluated(ns, ts[1..], stack + [Bool(false)], path)
        case other => other
    else
      match Apply(ts[0], stack)
      case Some(next) => Evaluated(ns, ts[1..], next, path)
      case None => InvalidExpression
  }

  // The stack after the last token; None when an error ends the evaluation before.
  function FinalStack(ns: Namespace, ts: seq<Token>, stack: seq<Basic>, path: set<string>): Option<seq<Basic>>
    decreases |ts|
  {
    if ts == [] then Some(stack)
    else if ts[0].Identifier? then
      if ts[0].name !in ns.index || ns.index[ts[0].name] >= |ns.options| then None
      else
        var j := ns.index[ts[0].name];
        match Valid(ns, j, path)
        case Passed => FinalStack(ns, ts[1..], stack + [ToBasic(ns.options[j].current)], path)
        case Failed => FinalStack(ns, ts[1..], stack + [Bool(false)], path)
        case _ => None
    else
      match Apply(ts[0], stack)
      case Some(next) => FinalStack(ns, ts[1..], next, path)
      case None => None
  }

  // Every token is processed and leaves something on the stack.
  predicate Finishes(ns: Namespace, ts: seq<Token>, path: set<string>) {
    FinalStack(ns, ts, [], path).Some? && FinalStack(ns, ts, [], path).value != []
  }

  // Whether evaluating option i leaves the shared set of names as it was.
  predicate Restores(ns: Namespace, i: nat, path: set<string>)
    requires i < |ns.options|
  {
    var o := ns.options[i];
    o.depends.None? || o.name in path || Finishes(ns, o.depends.value, path + {o.name})
  }

  // The result is read off the final stack; an evaluation cut short has no verdict.
  lemma {:induction false} FinalVerdict(ns: Namespace, ts: seq<Token>, stack: seq<Basic>, path: set<string>)
    ensures match FinalStack(ns, ts, stack, path)
            case Some(final) => Evaluated(ns, ts, stack, path) == Verdict(final)
            case None => Evaluated(ns, ts, stack, path) == InvalidExpression || Evaluated(ns, ts, stack, path) == CircularExpression
    decreases |ts|
  {
    if ts != [] {
      if ts[0].Identifier? {
        if ts[0].name in ns.index && ns.index[ts[0].name] < |ns.options| {
          var j := ns.index[ts[0].name];
          match Valid(ns, j, path)
          case Passed => FinalVerdict(ns, ts[1..], stack + [ToBasic(ns.options[j].current)], path);
          case Failed => FinalVerdict(ns, ts[1..], stack + [Bool(false)], path);
          case _ =>
        }
      } else if Apply(ts[0], stack).Some? {
        FinalVerdict(ns, ts[1..], Apply(ts[0], stack).value, path);
      }
    }
  }

  // A verdict means that the set was restored.
  lemma VerdictRestores(ns: Namespace, i: nat, path: set<string>)
    requires i < |ns.options| && (Valid(ns, i, path) == Passed || Valid(ns, i, path) == Failed)
    ensures Restores(ns, i, path)
  {
    var o := ns.options[i];
    if o.depends.Some? && o.name !in path {
      FinalVerdict(ns, o.depends.value, [], path + {o.name});
    }
  }

  // The option "A" with one expression; the number 1 is no verdict, yet the set is restored after
  // it, and not after an addition with nothing to add.
  lemma ErrorsDiffer()
    ensures var one := Namespace(map[], [ConfigOption("A", Null, Some([Literal(Int(1))]))]);
            Parsed(one) && Valid(one, 0, {}) == InvalidExpression && Restores(one, 0, {})
    ensures var plus := Namespace(map[], [ConfigOption("A", Null, Some([Add]))]);
            Parsed(plus) && Valid(plus, 0, {}) == InvalidExpression && !Restores(plus, 0, {})
  {
    var one := Namespace(map[], [ConfigOption("A", Null, Some([Literal(Int(1))]))]);
    var ts := [Literal(Int(1))];
    assert [] + [Int(1)] == [Int(1)] && ts[1..] == [];
    assert Apply(ts[0], []) == Some([Int(1)]);
    assert FinalStack(one, [], [Int(1)], {} + {"A"}) == Some([Int(1)]);
    assert FinalStack(one, ts, [], {} + {"A"}) == Some([Int(1)]);
    FinalVerdict(one, ts, [], {} + {"A"});
    var plus := Namespace(map[], [ConfigOption("A", Null, Some([Add]))]);
    assert Apply([Add][0], []) == None;
    FinalVerdict(plus, [Add], [], {} + {"A"});
    assert Evaluated(plus, [Add], [], {} + {"A"}) == InvalidExpression;
  }

  // ---- what expressions say, operator by operator ----

  // The option has this expression.
  ghost predicate Has(ns: Namespace, i: nat, ts: seq<Token>) {
    i < |ns.options| && ns.options[i].depends == Some(ts)
  }

  function Says(b: bool): Result {
    if b then Passed else Failed
  }

  // One token taken off the front.
  lemma Shift(ns: Namespace, t: Token, rest: seq<Token>, stack: seq<Basic>, path: set<string>)
    requires !t.Identifier?
    ensures Evaluated(ns, [t] + rest, stack, path)
         == match Apply(t, stack) case Some(next) => Evaluated(ns, rest, next, path) case None => InvalidExpression
  {
    assert ([t] + rest)[1..] == rest;
  }

  lemma Alone(ns: Namespace, i: nat, ts: seq<Token>)
    requires Has(ns, i, ts)
    ensures Valid(ns, i, {}) == Evaluated(ns, ts, [], {ns.options[i].name})
  {
    assert {} + {ns.options[i].name} == {ns.options[i].name};
  }

  // Two literals with tokens to come.
  lemma TwoPushed(ns: Namespace, x: Basic, y: Basic, rest: seq<Token>, path: set<string>)
    ensures Evaluated(ns, [Literal(x), Literal(y)] + rest, [], path) == Evaluated(ns, rest, [x, y], path)
  {
    hide Evaluated;
    assert [Literal(x), Literal(y)] + rest == [Literal(x)] + ([Literal(y)] + rest);
    Shift(ns, Literal(x), [Literal(y)] + rest, [], path);
    Shift(ns, Literal(y), rest, [x], path);
    assert [] + [x] == [x] && [x] + [y] == [x, y];
  }

  lemma Nothing(ns: Namespace, stack: seq<Basic>, path: set<string>)
    ensures Evaluated(ns, [], stack, path) == if stack == [] then InvalidExpression else
              match stack[|stack| - 1] case Bool(b) => Says(b) case _ => InvalidExpression
  {
  }

  // `x y op`: the operator's value, if that is a truth value.
  lemma OneOperator(ns: Namespace, i: nat, x: Basic, y: Basic, op: Token)
    requires Has(ns, i, [Literal(x), Literal(y), op])
    requires op in {Add, Sub, And, Or, Equ, NotEqu, Gt, Lt, GtEqu, LtEqu}
    ensures Valid(ns, i, {}) == match Binary(op, x, y) case Some(Bool(b)) => Says(b) case _ => InvalidExpression
  {
    hide Evaluated, Valid, Binary, Verdict;
    var path := {ns.options[i].name};
    assert [Literal(x), Literal(y), op] == [Literal(x), Literal(y)] + [op] && [op] == [op] + [];
    Alone(ns, i, [Literal(x), Literal(y), op]);
    TwoPushed(ns, x, y, [op], path);
    Shift(ns, op, [], [x, y], path);
    assert [x, y][..0] == [];
    if Binary(op, x, y).Some? {
      assert [] + [Binary(op, x, y).value] == [Binary(op, x, y).value];
      Nothing(ns, [Binary(op, x, y).value], path);
    }
  }

  // Numbers are compared as written, the first operand on the left; truth values count as 1 and 0.
  lemma NumbersCompared(ns: Namespace, i: nat, x: Basic, y: Basic, a: int, b: int, op: Token)
    requires Has(ns, i, [Literal(x), Literal(y), op])
    requires (x == Int(a) || (0 <= a <= 1 && x == Bool(a == 1))) && (y == Int(b) || (0 <= b <= 1 && y == Bool(b == 1)))
    ensures op == Gt ==> (Valid(ns, i, {}) == if a > b then Passed else Failed)
    ensures op == Lt ==> (Valid(ns, i, {}) == if a < b then Passed else Failed)
    ensures op == GtEqu ==> (Valid(ns, i, {}) == if a >= b then Passed else Failed)
    ensures op == LtEqu ==> (Valid(ns, i, {}) == if a <= b then Passed else Failed)
    ensures op == Equ ==> (Valid(ns, i, {}) == if a == b then Passed else Failed)
    ensures op == NotEqu ==> (Valid(ns, i, {}) == if a != b then Passed else Failed)
  {
    hide Valid;
    if op in {Gt, Lt, GtEqu, LtEqu, Equ, NotEqu} {
      OneOperator(ns, i, x, y, op);
    }
  }

  // A truth value counts as itself, an integer as true unless it is zero, a string unless it is empty.
  lemma TruthsJoined(ns: Namespace, i: nat, x: Basic, y: Basic, op: Token)
    requires Has(ns, i, [Literal(x), Literal(y), op])
    ensures var p := x == Bool(true) || (x.Int? && x.v != 0) || (x.Text? && |x.s| > 0);
            var q := y == Bool(true) || (y.Int? && y.v != 0) || (y.Text? && |y.s| > 0);
            && (op == And ==> (Valid(ns, i, {}) == if p && q then Passed else Failed))
            && (op == Or ==> (Valid(ns, i, {}) == if p || q then Passed else Failed))
  {
    hide Valid;
    if op in {And, Or} {
      OneOperator(ns, i, x, y, op);
    }
  }

  // Strings are equal letter by letter, and to a truth value if they are as empty as it says; they
  // are no numbers.
  lemma StringsCompared(ns: Namespace, i: nat, a: string, y: Basic, op: Token)
    requires Has(ns, i, [Literal(Text(a)), Literal(y), op]) || Has(ns, i, [Literal(y), Literal(Text(a)), op])
    ensures op == Equ ==> (Valid(ns, i, {}) == match y
                             case Text(b) => if a == b then Passed else Failed
                             case Bool(b) => if b == (|a| > 0) then Passed else Failed
                             case Int(_) => InvalidExpression)
    ensures op == NotEqu ==> (Valid(ns, i, {}) == match y
                                case Text(b) => if a != b then Passed else Failed
                                case Bool(b) => if b != (|a| > 0) then Passed else Failed
                                case Int(_) => InvalidExpression)
    ensures op in {Add, Sub, Gt, Lt, GtEqu, LtEqu} ==> Valid(ns, i, {}) == InvalidExpression
  {
    hide Valid;
    if op in {Equ, NotEqu, Add, Sub, Gt, Lt, GtEqu, LtEqu} {
      if Has(ns, i, [Literal(Text(a)), Literal(y), op]) {
        OneOperator(ns, i, Text(a), y, op);
      } else {
        OneOperator(ns, i, y, Text(a), op);
      }
    }
  }

  // `x y + c ==` passes exactly if the sum is c, and is invalid where the sum has no 64 bits; so for
  // the difference, of the first operand less the second.
  lemma SumsCompared(ns: Namespace, i: nat, x: Basic, y: Basic, a: int, b: int, c: int, op: Token)
    requires Has(ns, i, [Literal(x), Literal(y), op, Literal(Int(c)), Equ])
    requires (x == Int(a) || (0 <= a <= 1 && x == Bool(a == 1))) && (y == Int(b) || (0 <= b <= 1 && y == Bool(b == 1)))
    requires op == Add || op == Sub
    ensures var r := if op == Add then a + b else a - b;
            Valid(ns, i, {}) == if !(-0x8000_0000_0000_0000 <= r < 0x8000_0000_0000_0000) then InvalidExpression
                                else if r == c then Passed else Failed
  {
    hide Evaluated, Valid;
    var path, r := {ns.options[i].name}, if op == Add then a + b else a - b;
    var ts := [Literal(x), Literal(y), op, Literal(Int(c)), Equ];
    assert ts == [Literal(x), Literal(y)] + ([op] + ([Literal(Int(c))] + [Equ])) && [Equ] == [Equ] + [];
    Alone(ns, i, ts);
    TwoPushed(ns, x, y, [op] + ([Literal(Int(c))] + [Equ]), path);
    Shift(ns, op, [Literal(Int(c))] + [Equ], [x, y], path);
    assert [x, y][..0] == [] && [] + [Int(r)] == [Int(r)];
    if Apply(op, [x, y]).Some? {
      Shift(ns, Literal(Int(c)), [Equ], [Int(r)], path);
      assert [Int(r)] + [Int(c)] == [Int(r), Int(c)] && [Int(r), Int(c)][..0] == [] && [] + [Bool(r == c)] == [Bool(r == c)];
      Shift(ns, Equ, [], [Int(r), Int(c)], path);
      Nothing(ns, [Bool(r == c)], path);
    }
  }

  // A literal by itself, and negated: no, or the empty string, becomes yes.
  lemma OneLiteral(ns: Namespace, i: nat, x: Basic)
    ensures Has(ns, i, [Literal(x)]) ==>
              (Valid(ns, i, {}) == if x == Bool(true) then Passed else if x == Bool(false) then Failed else InvalidExpression)
    ensures Has(ns, i, [Literal(x), Not]) ==>
              (Valid(ns, i, {}) == if x.Int? then InvalidExpression else if x == Bool(false) || x == Text("") then Passed else Failed)
  {
    hide Evaluated, Valid, Verdict;
    if i < |ns.options| {
      var path := {ns.options[i].name};
      assert [] + [x] == [x] && [Literal(x)] == [Literal(x)] + [] && [Literal(x), Not] == [Literal(x)] + [Not] && [Not] == [Not] + [];
      Shift(ns, Literal(x), [], [], path);
      Shift(ns, Literal(x), [Not], [], path);
      Shift(ns, Not, [], [x], path);
      assert [x][..0] == [] && [] + [Complement(x)] == [Complement(x)];
      Nothing(ns, [x], path);
      Nothing(ns, [Complement(x)], path);
      if Has(ns, i, [Literal(x)]) {
        Alone(ns, i, [Literal(x)]);
      } else if Has(ns, i, [Literal(x), Not]) {
        Alone(ns, i, [Literal(x), Not]);
      }
    }
  }

  // An integer's bits are turned over, and of what is left at the end the last decides.
  lemma LastDecides(ns: Namespace, i: nat, x: Basic, y: Basic, a: int, c: int)
    ensures Has(ns, i, [Literal(x), Literal(y)]) ==>
              (Valid(ns, i, {}) == if y == Bool(true) then Passed else if y == Bool(false) then Failed else InvalidExpression)
    ensures Has(ns, i, [Literal(Int(a)), Not, Literal(Int(c)), Equ]) ==> (Valid(ns, i, {}) == if a + c == -1 then Passed else Failed)
  {
    hide Evaluated, Valid, Verdict;
    if i < |ns.options| && ns.options[i].depends.Some? {
      var path := {ns.options[i].name};
      Alone(ns, i, ns.options[i].depends.value);
      assert [Literal(x), Literal(y)] == [Literal(x), Literal(y)] + [];
      TwoPushed(ns, x, y, [], path);
      Nothing(ns, [x, y], path);
      var n, e := Int(-a - 1), Bool(-a - 1 == c);
      assert [Literal(Int(a)), Not, Literal(Int(c)), Equ] == [Literal(Int(a))] + ([Not] + ([Literal(Int(c))] + ([Equ] + [])));
      assert [] + [Int(a)] == [Int(a)] && [Int(a)][..0] == [] && [] + [n] == [n] && [n] + [Int(c)] == [n, Int(c)];
      Shift(ns, Literal(Int(a)), [Not] + ([Literal(Int(c))] + ([Equ] + [])), [], path);
      Shift(ns, Not, [Literal(Int(c))] + ([Equ] + []), [Int(a)], path);
      Shift(ns, Literal(Int(c)), [Equ] + [], [n], path);
      Shift(ns, Equ, [], [n, Int(c)], path);
      assert [n, Int(c)][..0] == [] && [] + [e] == [e];
      Nothing(ns, [e], path);
    }
  }

  // A name by itself says what the option named is set to, if that option may be set, and no if it
  // may not; a selection is what is selected, and an option without a value is off.
  lemma OneName(ns: Namespace, i: nat, j: nat, n: string)
    requires Has(ns, i, [Identifier(n)]) && n in ns.index && ns.index[n] == j < |ns.options|
    ensures Valid(ns, i, {}) == match Valid(ns, j, {ns.options[i].name})
              case Passed =>
                (match ns.options[j].current
                 case Null => Failed
                 case Scalar(x) => if x == Bool(true) then Passed else if x == Bool(false) then Failed else InvalidExpression
                 case Selection(k, xs) =>
                   if k >= |xs| || xs[k] == Bool(false) then Failed else if xs[k] == Bool(true) then Passed else InvalidExpression)
              case other => other
  {
    hide Valid;
    var path := {ns.options[i].name};
    Alone(ns, i, [Identifier(n)]);
    assert [Identifier(n)][1..] == [];
    var v := ToBasic(ns.options[j].current);
    assert [] + [v] == [v] && [] + [Bool(false)] == [Bool(false)];
    Nothing(ns, [v], path);
    Nothing(ns, [Bool(false)], path);
  }

  // What is asked of an operator that finds too little is nothing.
  lemma TooLittle(ns: Namespace, i: nat, x: Basic, op: Token)
    requires op in {Add, Sub, And, Or, Equ, NotEqu, Gt, Lt, GtEqu, LtEqu}
    ensures Has(ns, i, [Literal(x), op]) || Has(ns, i, [op]) || Has(ns, i, [Not]) || Has(ns, i, []) ==> Valid(ns, i, {}) == InvalidExpression
  {
    hide Evaluated, Valid;
    if i < |ns.options| && ns.options[i].depends.Some? {
      var path := {ns.options[i].name};
      Alone(ns, i, ns.options[i].depends.value);
      assert [] + [x] == [x] && [Literal(x), op] == [Literal(x)] + [op] && [op] == [op] + [] && [Not] == [Not] + [];
      Shift(ns, Literal(x), [op], [], path);
      Shift(ns, op, [], [x], path);
      Shift(ns, op, [], [], path);
      Shift(ns, Not, [], [], path);
      Nothing(ns, [], path);
    }
  }

  // ---- valid, valid_internal and evaluate as they run ----

  method ValidOption(ns: Namespace, i: nat) returns (r: Result)
    requires Parsed(ns) && i < |ns.options|
    ensures r == Valid(ns, i, {})
  {
    var left;
    r, left := ValidInternal(ns, i, {});
  }

  method ValidInternal(ns: Namespace, i: nat, evaluated: set<string>) returns (r: Result, evaluated': set<string>)
    requires Parsed(ns) && i < |ns.options|
    ensures r == Valid(ns, i, evaluated)
    ensures evaluated <= evaluated' && (evaluated' == evaluated <==> Restores(ns, i, evaluated))
    ensures !Restores(ns, i, evaluated) ==> ns.options[i].name in evaluated'
    decreases |Names(ns) - evaluated|, 0
  {
    var o := ns.options[i];
    if o.depends.None? {
      return Passed, evaluated;
    }
    evaluated' := evaluated;
    if o.name in evaluated' {
      return CircularExpression, evaluated';
    }
    assert o in ns.options;
    FewerLeft(Names(ns), evaluated, o.name);
    evaluated' := evaluated' + {o.name};
    r, evaluated' := Evaluate(ns, o.name, o.depends.value, evaluated');
  }

  // The loop of evaluate and what follows it, with the identifier entered already.
  method Evaluate(ns: Namespace, identifier: string, tokens: seq<Token>, evaluated: set<string>) returns (r: Result, evaluated': set<string>)
    requires Parsed(ns) && identifier in evaluated
    ensures r == Evaluated(ns, tokens, [], evaluated)
    ensures evaluated' == evaluated - {identifier} <==> Finishes(ns, tokens, evaluated)
    ensures evaluated - {identifier} <= evaluated' && (!Finishes(ns, tokens, evaluated) ==> identifier in evaluated')
    decreases |Names(ns) - evaluated|, 1
  {
    var stack: seq<Basic> := [];
    evaluated' := evaluated;
    var k := 0;
    assert tokens[0..] == tokens;
    while k < |tokens|
      invariant k <= |tokens| && evaluated' == evaluated
      invariant Evaluated(ns, tokens[k..], stack, evaluated) == Evaluated(ns, tokens, [], evaluated)
      invariant FinalStack(ns, tokens[k..], stack, evaluated) == FinalStack(ns, tokens, [], evaluated)
    {
      var token := tokens[k];
      assert tokens[k..][1..] == tokens[k + 1..];
      if token.Identifier? {
        if token.name !in ns.index {
          return InvalidExpression, evaluated';
        }
        var j := ns.index[token.name];
        var dep;
        dep, evaluated' := ValidInternal(ns, j, evaluated');
        if dep == Passed || dep == Failed {
          VerdictRestores(ns, j, evaluated);
        }
        match dep {
          case Passed => stack := stack + [ToBasic(ns.options[j].current)];
          case Failed => stack := stack + [Bool(false)];
          case _ => return dep, evaluated';
        }
      } else {
        var next := Apply(token, stack);
        if next.None? {
          return InvalidExpression, evaluated';
        }
        stack := next.value;
      }
      k := k + 1;
    }
    if stack == [] {
      return InvalidExpression, evaluated';
    }
    evaluated' := evaluated' - {identifier};
    r := Verdict(stack);
  }

  // ---- cycles ----

  // Option i's expression names option j.
  ghost predicate DependsOn(ns: Namespace, i: nat, j: nat) {
    i < |ns.options| && ns.options[i].depends.Some?
    && exists n :: Identifier(n) in ns.options[i].depends.value && n in ns.index && ns.index[n] == j
  }

  // Each option on the walk names the next.
  ghost predicate Walk(ns: Namespace, w: seq<nat>) {
    w != [] && w[0] < |ns.options| && (|w| > 1 ==> DependsOn(ns, w[0], w[1]) && Walk(ns, w[1..]))
  }

  ghost predicate Repeats(w: seq<nat>) {
    exists a, b :: 0 <= a < b < |w| && w[a] == w[b]
  }

  // A cycle can be reached from option i.
  ghost predicate Cyclic(ns: Namespace, i: nat) {
    exists w :: Walk(ns, w) && w[0] == i && Repeats(w)
  }

  // A verdict means every name in the expression was evaluated to a verdict.
  lemma {:induction false} AllEvaluated(ns: Namespace, ts: seq<Token>, stack: seq<Basic>, path: set<string>, n: string)
    requires Parsed(ns) && Identifier(n) in ts
    requires Evaluated(ns, ts, stack, path) == Passed || Evaluated(ns, ts, stack, path) == Failed
    ensures n in ns.index && (Valid(ns, ns.index[n], path) == Passed || Valid(ns, ns.index[n], path) == Failed)
    decreases |ts|
  {
    if ts[0] != Identifier(n) {
      assert Identifier(n) in ts[1..];
      if ts[0].Identifier? {
        var j := ns.index[ts[0].name];
        if Valid(ns, j, path) == Passed {
          AllEvaluated(ns, ts[1..], stack + [ToBasic(ns.options[j].current)], path, n);
        } else {
          AllEvaluated(ns, ts[1..], stack + [Bool(false)], path, n);
        }
      } else {
        AllEvaluated(ns, ts[1..], Apply(ts[0], stack).value, path, n);
      }
    }
  }

  // After a verdict, no walk from the option repeats itself or runs into the path.
  lemma {:induction false} VerdictWalk(ns: Namespace, i: nat, path: set<string>, w: seq<nat>)
    requires Parsed(ns) && Walk(ns, w) && w[0] == i
    requires Valid(ns, i, path) == Passed || Valid(ns, i, path) == Failed
    ensures !Repeats(w)
    ensures forall k :: 0 <= k < |w| ==> w[k] < |ns.options| && (ns.options[w[k]].depends.Some? ==> ns.options[w[k]].name !in path)
    decreases |w|
  {
    if |w| > 1 {
      var o := ns.options[i];
      var n :| Identifier(n) in o.depends.value && n in ns.index && ns.index[n] == w[1];
      AllEvaluated(ns, o.depends.value, [], path + {o.name}, n);
      VerdictWalk(ns, w[1], path + {o.name}, w[1..]);
      forall k | 0 < k < |w| ensures w[k] == w[1..][k - 1] && w[k] != i {
      }
      forall a, b | 0 <= a < b < |w| ensures w[a] != w[b] {
        if a > 0 {
          assert w[a] == w[1..][a - 1] && w[b] == w[1..][b - 1];
        }
      }
    }
  }

  // Where the circularity came from.
  lemma {:induction false} CircularName(ns: Namespace, ts: seq<Token>, stack: seq<Basic>, path: set<string>) returns (n: string)
    requires Parsed(ns) && Evaluated(ns, ts, stack, path) == CircularExpression
    ensures Identifier(n) in ts && n in ns.index && Valid(ns, ns.index[n], path) == CircularExpression
    decreases |ts|
  {
    if ts[0].Identifier? {
      n := ts[0].name;
      var j := ns.index[n];
      match Valid(ns, j, path)
      case Passed => n := CircularName(ns, ts[1..], stack + [ToBasic(ns.options[j].current)], path);
      case Failed => n := CircularName(ns, ts[1..], stack + [Bool(false)], path);
      case _ =>
    } else {
      n := CircularName(ns, ts[1..], Apply(ts[0], stack).value, path);
    }
  }

  lemma {:induction false} WalkOn(ns: Namespace, w: seq<nat>, i: nat, j: nat)
    requires Walk(ns, w + [i]) && DependsOn(ns, i, j) && j < |ns.options|
    ensures Walk(ns, w + [i] + [j])
    decreases |w|
  {
    if w == [] {
      assert w + [i] + [j] == [i, j] && [i, j][1..] == [j];
    } else {
      assert (w + [i])[1..] == w[1..] + [i] && (w + [i] + [j])[1..] == w[1..] + [i] + [j];
      WalkOn(ns, w[1..], i, j);
    }
  }

  // The options being evaluated when option i's turn comes.
  ghost predicate Trail(ns: Namespace, w: seq<nat>, i: nat, path: set<string>) {
    && Walk(ns, w + [i])
    && (forall k :: 0 <= k < |w| ==> w[k] < |ns.options| && ns.options[w[k]].depends.Some?)
    && (forall x :: x in path ==> exists k :: 0 <= k < |w| && ns.options[w[k]].name == x)
  }

  lemma TrailOn(ns: Namespace, w: seq<nat>, i: nat, j: nat, path: set<string>)
    requires Trail(ns, w, i, path) && DependsOn(ns, i, j) && j < |ns.options|
    ensures Trail(ns, w + [i], j, path + {ns.options[i].name})
  {
    WalkOn(ns, w, i, j);
    var v := w + [i];
    forall x | x in path + {ns.options[i].name} ensures exists k :: 0 <= k < |v| && ns.options[v[k]].name == x {
      if x in path {
        var k :| 0 <= k < |w| && ns.options[w[k]].name == x;
        assert v[k] == w[k];
      } else {
        assert v[|w|] == i;
      }
    }
  }

  // A report of circularity has a walk that repeats itself behind it.
  lemma {:induction false} CircularWalk(ns: Namespace, w: seq<nat>, i: nat, path: set<string>) returns (c: seq<nat>)
    requires Parsed(ns) && i < |ns.options| && Trail(ns, w, i, path) && Valid(ns, i, path) == CircularExpression
    ensures Walk(ns, c) && Repeats(c) && c[0] == (w + [i])[0]
    decreases |Names(ns) - path|
  {
    var o := ns.options[i];
    c := w + [i];
    if o.name in path {
      var k :| 0 <= k < |w| && ns.options[w[k]].name == o.name;
      assert w[k] == i && c[k] == c[|w|];
    } else {
      var n := CircularName(ns, o.depends.value, [], path + {o.name});
      var j := ns.index[n];
      assert DependsOn(ns, i, j);
      TrailOn(ns, w, i, j, path);
      assert o in ns.options;
      FewerLeft(Names(ns), path, o.name);
      hide Trail, Valid;
      c := CircularWalk(ns, w + [i], j, path + {o.name});
    }
  }

  // valid terminates on every namespace, reports a circle only where one can be reached, and gives
  // a verdict only where none can: shared dependencies are no circle.
  lemma ValidSound(ns: Namespace, i: nat)
    requires Parsed(ns) && i < |ns.options|
    ensures Valid(ns, i, {}) == CircularExpression ==> Cyclic(ns, i)
    ensures Valid(ns, i, {}) == Passed || Valid(ns, i, {}) == Failed ==> !Cyclic(ns, i)
  {
    match Valid(ns, i, {})
    case CircularExpression =>
      assert [] + [i] == [i];
      var c := CircularWalk(ns, [], i, {});
    case InvalidExpression =>
    case _ =>
      forall w | Walk(ns, w) && w[0] == i ensures !Repeats(w) {
        VerdictWalk(ns, i, {}, w);
      }
  }

  // ---- an option's worth does not depend on who asks ----

  lemma {:induction false} PathIrrelevant(ns: Namespace, i: nat, path: set<string>, path': set<string>)
    requires Parsed(ns) && i < |ns.options| && path' <= path && Valid(ns, i, path) != CircularExpression
    ensures Valid(ns, i, path') == Valid(ns, i, path)
    decreases |Names(ns) - path|, 0
  {
    var o := ns.options[i];
    if o.depends.Some? {
      assert o in ns.options;
      FewerLeft(Names(ns), path, o.name);
      PathIrrelevantFrom(ns, o.depends.value, [], path + {o.name}, path' + {o.name});
    }
  }

  lemma {:induction false} PathIrrelevantFrom(ns: Namespace, ts: seq<Token>, stack: seq<Basic>, path: set<string>, path': set<string>)
    requires Parsed(ns) && path' <= path && Evaluated(ns, ts, stack, path) != CircularExpression
    ensures Evaluated(ns, ts, stack, path') == Evaluated(ns, ts, stack, path)
    decreases |Names(ns) - path|, |ts| + 1
  {
    if ts != [] {
      if ts[0].Identifier? {
        if ts[0].name in ns.index {
          var j := ns.index[ts[0].name];
          PathIrrelevant(ns, j, path, path');
          match Valid(ns, j, path)
          case Passed => PathIrrelevantFrom(ns, ts[1..], stack + [ToBasic(ns.options[j].current)], path, path');
          case Failed => PathIrrelevantFrom(ns, ts[1..], stack + [Bool(false)], path, path');
          case _ =>
        }
      } else if Apply(ts[0], stack).Some? {
        PathIrrelevantFrom(ns, ts[1..], Apply(ts[0], stack).value, path, path');
      }
    }
  }

  // What an expression sees of a dependency is what the dependency's own `valid` says of it.
  lemma NestedIsOwn(ns: Namespace, i: nat, n: string)
    requires Parsed(ns) && i < |ns.options| && ns.options[i].depends.Some? && Identifier(n) in ns.options[i].depends.value
    requires Valid(ns, i, {}) == Passed || Valid(ns, i, {}) == Failed
    ensures n in ns.index && Valid(ns, ns.index[n], {}) == Valid(ns, ns.index[n], {ns.options[i].name})
    ensures Valid(ns, ns.index[n], {}) == Passed || Valid(ns, ns.index[n], {}) == Failed
  {
    var o := ns.options[i];
    assert {} + {o.name} == {o.name};
    AllEvaluated(ns, o.depends.value, [], {o.name}, n);
    PathIrrelevant(ns, ns.index[n], {o.name}, {});
  }
}
