/** The primitive operations (builtins.go): the fixed registry of names, the list
    primitives `quote`/`car`/`cdr`, the left folds behind `+ - * /`, and `define`. */
module Builtins {
  import opened Wrappers
  import opened Atoms

  /** The bindings of one environment scope, as far as `define` touches them. */
  type Env = map<string, Atom>

  /** The native functions the registry refers to. */
  datatype Op = OpAdd | OpSubtract | OpMultiply | OpDivide | OpDefine | OpQuote | OpCar | OpCdr

  /** The registry as `initializeBuiltins` leaves it; nothing adds to it afterwards. */
  const Registry: map<string, Op> := map[
    "+" := OpAdd, "-" := OpSubtract, "*" := OpMultiply, "/" := OpDivide,
    "define" := OpDefine, "quote" := OpQuote, "car" := OpCar, "cdr" := OpCdr]

  /** `isBuiltIn`: the name has a registry entry. */
  function IsBuiltIn(s: string): (r: bool)
    ensures r <==> s in {"+", "-", "*", "/", "define", "quote", "car", "cdr"}
  {
    s in Registry
  }

  /** The conditional and the closure keyword are special forms, not registry entries. */
  lemma SpecialFormsNotBuiltIn()
    ensures !IsBuiltIn("if") && !IsBuiltIn("lambda")
    ensures !IsBuiltIn("true") && !IsBuiltIn("false")
  {
  }

  /** `Quote`: the argument list, unevaluated and in order, as the payload of a quote atom. */
  function Quote(input: seq<Atom>): (r: Atom)
    ensures r.typ == AtomQuote && r.val.AtomList? && r.val.atoms == input
    ensures r.valNum == 0.0 && r.lambdaName == "" && r.lambdaArgs == [] && r.lambdaFn == Nil
  {
    Blank.(typ := AtomQuote, val := AtomList(input))
  }

  /** What `Car` demands: a first argument holding a non-empty `[]Atom` whose head
      holds a string or an atom. */
  predicate CarArgs(input: seq<Atom>) {
    && |input| > 0
    && input[0].val.AtomList?
    && |input[0].val.atoms| > 0
    && Creatable(input[0].val.atoms[0].val)
  }

  /** `Car`: the head of the list, re-classified from its payload. */
  function Car(h: Host, input: seq<Atom>): (r: Atom)
    requires CarArgs(input)
    ensures var head := input[0].val.atoms[0];
      && (head.val.AtomV? ==> r == head.val.atom)
      && (head.val.Str? ==> TokenOf(r) == head.val.s && r.typ != AtomBuiltin && r.typ != AtomQuote)
      && (head.val.Str? ==> (r.typ == AtomFloat <==> h.parseFloat(head.val.s).Some?))
  {
    CreateAtom(h, input[0].val.atoms[0].val)
  }

  /** A quoted atom whose payload is the token `s` comes back as `s` classified afresh:
      a builtin's name comes back as a symbol. */
  lemma CarReclassifiesHead(h: Host, head: Atom, rest: seq<Atom>, s: string)
    requires head.val == Str(s)
    ensures CarArgs([Quote([head] + rest)])
    ensures Car(h, [Quote([head] + rest)]) == CreateAtom(h, Str(s))
    ensures head.typ == AtomBuiltin && h.parseFloat(s).None? && s !in Reserved ==>
      Car(h, [Quote([head] + rest)]).typ == AtomSymbol
  {
  }

  /** Quoting a classified token and taking `car` gives the token's atom back,
      unless it is a boolean, whose payload `Car` cannot take. */
  lemma CarOfQuotedToken(h: Host, s: string, rest: seq<Atom>)
    ensures var head := CreateAtom(h, Str(s));
      && (head.typ != AtomBoolean ==> CarArgs([Quote([head] + rest)]) && Car(h, [Quote([head] + rest)]) == head)
      && (head.typ == AtomBoolean ==> !CarArgs([Quote([head] + rest)]))
  {
  }

  /** What `Cdr` demands: a first argument holding a non-empty `[]Atom`. */
  predicate CdrArgs(input: seq<Atom>) {
    |input| > 0 && input[0].val.AtomList? && |input[0].val.atoms| > 0
  }

  /** `Cdr`: a quote of every element after the head; the head followed by that
      payload is the original list. */
  function Cdr(input: seq<Atom>): (r: Atom)
    requires CdrArgs(input)
    ensures r.val.AtomList? && r == Quote(r.val.atoms)
    ensures |r.val.atoms| == |input[0].val.atoms| - 1
    ensures [input[0].val.atoms[0]] + r.val.atoms == input[0].val.atoms
  {
    Quote(input[0].val.atoms[1..])
  }

  /** `car` and `cdr` of a quoted list split it into its head and a quote of its tail. */
  lemma CarCdrSplitQuote(h: Host, head: Atom, rest: seq<Atom>)
    requires Creatable(head.val)
    ensures CarArgs([Quote([head] + rest)]) && CdrArgs([Quote([head] + rest)])
    ensures Car(h, [Quote([head] + rest)]) == CreateAtom(h, head.val)
    ensures Cdr([Quote([head] + rest)]) == Quote(rest)
  {
  }

  /** The four arithmetic operators. */
  datatype Arith = Plus | Minus | Times | Over

  /** One step of an arithmetic loop: `acc op= x`. */
  function Step(op: Arith, acc: real, x: real): real
    requires op == Over ==> x != 0.0
  {
    match op
    case Plus => acc + x
    case Minus => acc - x
    case Times => acc * x
    case Over => acc / x
  }

  /** Every number of the list is non-zero. */
  predicate NonZero(xs: seq<Atom>) {
    forall i :: 0 <= i < |xs| ==> xs[i].valNum != 0.0
  }

  /** The `for _, n := range xs { acc op= n.valNum }` loop: a left fold from `acc`. */
  function Fold(op: Arith, acc: real, xs: seq<Atom>): real
    requires op == Over ==> NonZero(xs)
    decreases |xs|
  {
    if |xs| == 0 then acc
    else Fold(op, Step(op, acc, xs[0].valNum), xs[1..])
  }

  /** The sum of the numbers of a list. */
  function Sum(xs: seq<Atom>): real {
    if |xs| == 0 then 0.0 else xs[0].valNum + Sum(xs[1..])
  }

  /** The product of the numbers of a list. */
  function Product(xs: seq<Atom>): real {
    if |xs| == 0 then 1.0 else xs[0].valNum * Product(xs[1..])
  }

  /** The fold visits the elements left to right: the last element is applied last. */
  lemma {:induction false} FoldSnoc(op: Arith, acc: real, xs: seq<Atom>, y: Atom)
    requires op == Over ==> NonZero(xs + [y])
    ensures op == Over ==> NonZero(xs) && y.valNum != 0.0
    ensures Fold(op, acc, xs + [y]) == Step(op, Fold(op, acc, xs), y.valNum)
    decreases |xs|
  {
    if op == Over {
      assert forall i :: 0 <= i < |xs| ==> xs[i] == (xs + [y])[i];
      assert y == (xs + [y])[|xs|];
    }
    if |xs| == 0 {
      assert xs + [y] == [y];
      assert [y][1..] == [];
    } else {
      assert (xs + [y])[0] == xs[0];
      assert (xs + [y])[1..] == xs[1..] + [y];
      FoldSnoc(op, Step(op, acc, xs[0].valNum), xs[1..], y);
    }
  }

  /** Folding `+=` from `acc` adds the sum of the list. */
  lemma {:induction false} FoldPlusIsSum(acc: real, xs: seq<Atom>)
    ensures Fold(Plus, acc, xs) == acc + Sum(xs)
    decreases |xs|
  {
    if |xs| > 0 {
      FoldPlusIsSum(acc + xs[0].valNum, xs[1..]);
    }
  }

  /** Folding `-=` from `acc` subtracts the sum of the list. */
  lemma {:induction false} FoldMinusIsSum(acc: real, xs: seq<Atom>)
    ensures Fold(Minus, acc, xs) == acc - Sum(xs)
    decreases |xs|
  {
    if |xs| > 0 {
      FoldMinusIsSum(acc - xs[0].valNum, xs[1..]);
    }
  }

  /** Folding `*=` from `acc` multiplies by the product of the list. */
  lemma {:induction false} FoldTimesIsProduct(acc: real, xs: seq<Atom>)
    ensures Fold(Times, acc, xs) == acc * Product(xs)
    decreases |xs|
  {
    if |xs| > 0 {
      var x, p := xs[0].valNum, Product(xs[1..]);
      FoldTimesIsProduct(acc * x, xs[1..]);
      assert Step(Times, acc, x) == acc * x;
      assert Fold(Times, acc, xs) == Fold(Times, acc * x, xs[1..]);
      assert Product(xs) == x * p;
      assert (acc * x) * p == acc * (x * p);
    }
  }

  /** Folding `/=` from `acc` over non-zero divisors divides by their product. */
  lemma {:induction false} FoldOverIsQuotient(acc: real, xs: seq<Atom>)
    requires NonZero(xs)
    ensures Product(xs) != 0.0
    ensures Fold(Over, acc, xs) == acc / Product(xs)
    decreases |xs|
  {
    if |xs| > 0 {
      var x := xs[0].valNum;
      assert forall i :: 0 <= i < |xs[1..]| ==> xs[1..][i] == xs[i + 1];
      FoldOverIsQuotient(acc / x, xs[1..]);
      var p := Product(xs[1..]);
      assert (acc / x) / p == acc / (x * p);
    }
  }

  /** The result atom of the arithmetic primitives: a float with its formatted text as `val`. */
  function FloatAtom(h: Host, v: real): Atom {
    Blank.(typ := AtomFloat, val := Str(h.formatFloat(v)), valNum := v)
  }

  /** `Add`: seeded with 0, so the empty list gives 0; the result is the sum. */
  function Add(h: Host, input: seq<Atom>): (r: Atom)
    ensures r == FloatAtom(h, Sum(input))
  {
    FoldPlusIsSum(0.0, input);
    FloatAtom(h, Fold(Plus, 0.0, input))
  }

  /** `Subtract`: seeded with the first number, then every later number is subtracted. */
  function Subtract(h: Host, input: seq<Atom>): (r: Atom)
    requires |input| >= 1
    ensures r == FloatAtom(h, input[0].valNum - Sum(input[1..]))
  {
    FoldMinusIsSum(input[0].valNum, input[1..]);
    FloatAtom(h, Fold(Minus, input[0].valNum, input[1..]))
  }

  /** `Multiply`: seeded with the first number; the result is the product of all. */
  function Multiply(h: Host, input: seq<Atom>): (r: Atom)
    requires |input| >= 1
    ensures r == FloatAtom(h, Product(input))
  {
    var v := Fold(Times, input[0].valNum, input[1..]);
    FoldTimesIsProduct(input[0].valNum, input[1..]);
    assert v == Product(input);
    FloatAtom(h, v)
  }

  /** `Divide`: seeded with the first number, divided by every later one. */
  function Divide(h: Host, input: seq<Atom>): (r: Atom)
    requires |input| >= 1 && NonZero(input[1..])
    ensures Product(input[1..]) != 0.0
    ensures r == FloatAtom(h, input[0].valNum / Product(input[1..]))
  {
    FoldOverIsQuotient(input[0].valNum, input[1..]);
    FloatAtom(h, Fold(Over, input[0].valNum, input[1..]))
  }

  /** A single argument passes through `-`, `*` and `/` unchanged; `+` of nothing is 0. */
  lemma SingleArgumentPassesThrough(h: Host, a: Atom)
    ensures Add(h, []).valNum == 0.0
    ensures Add(h, [a]).valNum == a.valNum
    ensures Subtract(h, [a]).valNum == a.valNum
    ensures Multiply(h, [a]).valNum == a.valNum
    ensures Divide(h, [a]).valNum == a.valNum
  {
    assert [a][1..] == [];
  }

  /** `-` associates to the left: appending an argument subtracts it from the previous result. */
  lemma SubtractAssociatesLeft(h: Host, xs: seq<Atom>, y: Atom)
    requires |xs| >= 1
    ensures Subtract(h, xs + [y]).valNum == Subtract(h, xs).valNum - y.valNum
  {
    assert (xs + [y])[0] == xs[0];
    assert (xs + [y])[1..] == xs[1..] + [y];
    FoldSnoc(Minus, xs[0].valNum, xs[1..], y);
    FoldMinusIsSum(xs[0].valNum, xs[1..] + [y]);
    FoldMinusIsSum(xs[0].valNum, xs[1..]);
  }

  /** `/` associates to the left: appending a non-zero divisor divides the previous result. */
  lemma DivideAssociatesLeft(h: Host, xs: seq<Atom>, y: Atom)
    requires |xs| >= 1 && NonZero(xs[1..]) && y.valNum != 0.0
    ensures NonZero((xs + [y])[1..])
    ensures Divide(h, xs + [y]).valNum == Divide(h, xs).valNum / y.valNum
  {
    assert (xs + [y])[0] == xs[0];
    assert (xs + [y])[1..] == xs[1..] + [y];
    assert NonZero(xs[1..] + [y]) by {
      forall i | 0 <= i < |xs[1..] + [y]|
        ensures (xs[1..] + [y])[i].valNum != 0.0
      {
        if i < |xs[1..]| {
          assert (xs[1..] + [y])[i] == xs[1..][i];
        }
      }
    }
    FoldSnoc(Over, xs[0].valNum, xs[1..], y);
    FoldOverIsQuotient(xs[0].valNum, xs[1..] + [y]);
    FoldOverIsQuotient(xs[0].valNum, xs[1..]);
  }

  /** What `Define` demands: a name argument holding a string and a value argument. */
  predicate DefineArgs(input: seq<Atom>) {
    |input| >= 2 && input[0].val.Str?
  }

  /** `Define`: binds the name to the second argument in the given scope and returns
      that argument; every other binding is left as it was. */
  function Define(input: seq<Atom>, env: Env): (r: (Atom, Env))
    requires DefineArgs(input)
    ensures r.0 == input[1]
    ensures r.1.Keys == env.Keys + {input[0].val.s}
    ensures input[0].val.s in r.1 && r.1[input[0].val.s] == input[1]
    ensures forall k :: k in env && k != input[0].val.s ==> r.1[k] == env[k]
  {
    (input[1], env[input[0].val.s := input[1]])
  }

  /** Defining a name twice keeps only the second value. */
  lemma DefineOverwrites(name: Atom, v1: Atom, v2: Atom, env: Env)
    requires name.val.Str?
    ensures Define([name, v2], Define([name, v1], env).1).1 == Define([name, v2], env).1
  {
  }

  /** Definitions of two different names do not interfere. */
  lemma DefineCommutes(n1: Atom, v1: Atom, n2: Atom, v2: Atom, env: Env)
    requires n1.val.Str? && n2.val.Str? && n1.val.s != n2.val.s
    ensures Define([n2, v2], Define([n1, v1], env).1).1 == Define([n1, v1], Define([n2, v2], env).1).1
  {
  }

  /** What each primitive demands of its argument list before it can run without panicking. */
  predicate Accepts(op: Op, input: seq<Atom>) {
    match op
    case OpAdd => true
    case OpSubtract => |input| >= 1
    case OpMultiply => |input| >= 1
    case OpDivide => |input| >= 1 && NonZero(input[1..])
    case OpDefine => DefineArgs(input)
    case OpQuote => true
    case OpCar => CarArgs(input)
    case OpCdr => CdrArgs(input)
  }

  /** Calling a registered primitive by name, as the evaluator does through the registry:
      each name runs its own primitive, and only `define` changes the environment. */
  function Call(h: Host, name: string, input: seq<Atom>, env: Env): (r: (Atom, Env))
    requires IsBuiltIn(name) && Accepts(Registry[name], input)
    ensures Registry[name] != OpDefine ==> r.1 == env
    ensures Registry[name] == OpDefine ==> r.0 == input[1] && r.1 == env[input[0].val.s := input[1]]
    ensures Registry[name] == OpQuote ==> r.0.typ == AtomQuote && r.0.val == AtomList(input)
    ensures Registry[name] == OpAdd ==> r.0 == FloatAtom(h, Sum(input))
    ensures Registry[name] == OpSubtract ==> r.0 == FloatAtom(h, input[0].valNum - Sum(input[1..]))
    ensures Registry[name] == OpMultiply ==> r.0 == FloatAtom(h, Product(input))
    ensures Registry[name] == OpDivide ==> r.0 == Divide(h, input)
    ensures Registry[name] == OpCar ==> r.0 == Car(h, input)
    ensures Registry[name] == OpCdr ==> r.0 == Cdr(input)
  {
    match Registry[name]
    case OpAdd => (Add(h, input), env)
    case OpSubtract => (Subtract(h, input), env)
    case OpMultiply => (Multiply(h, input), env)
    case OpDivide => (Divide(h, input), env)
    case OpDefine => Define(input, env)
    case OpQuote => (Quote(input), env)
    case OpCar => (Car(h, input), env)
    case OpCdr => (Cdr(input), env)
  }

  /** The wiring of `initializeBuiltins`: calling each registered name runs the primitive
      assigned to it, whenever that primitive accepts the arguments. */
  lemma RegistryWiring(h: Host, xs: seq<Atom>, env: Env)
    ensures Call(h, "+", xs, env) == (Add(h, xs), env)
    ensures |xs| >= 1 ==> Call(h, "-", xs, env) == (Subtract(h, xs), env)
    ensures |xs| >= 1 ==> Call(h, "*", xs, env) == (Multiply(h, xs), env)
    ensures |xs| >= 1 && NonZero(xs[1..]) ==> Call(h, "/", xs, env) == (Divide(h, xs), env)
    ensures DefineArgs(xs) ==> Call(h, "define", xs, env) == Define(xs, env)
    ensures Call(h, "quote", xs, env) == (Quote(xs), env)
    ensures CarArgs(xs) ==> Call(h, "car", xs, env) == (Car(h, xs), env)
    ensures CdrArgs(xs) ==> Call(h, "cdr", xs, env) == (Cdr(xs), env)
  {
  }
}
