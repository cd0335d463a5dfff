/** The value layer of the interpreter (atom.go): the tagged `Atom` record, the
    dynamically typed payload `T` it carries, classification of raw tokens, the
    slice coercions and the type predicates used by the evaluator. */
module Atoms {
  import opened Wrappers

  /** The tags of `atomEnumType`, in declaration order; `AtomSymbol` is Go's zero value. */
  datatype AtomType = AtomSymbol | AtomBuiltin | AtomFloat | AtomQuote | AtomLambda | AtomBoolean

  /** Go's `T`, an empty interface: the dynamic types the core stores in it or asserts out of it. */
  datatype Dynamic =
    | Nil                          // the zero interface value
    | Str(s: string)
    | BoolV(b: bool)
    | AtomV(atom: Atom)
    | ExprV(items: seq<Dynamic>)   // `Expr`, a slice of `T`
    | AtomList(atoms: seq<Atom>)   // `[]Atom`, the payload of a quote

  /** The `Atom` struct. Which fields are meaningful depends on `typ`; the rest keep their zero values. */
  datatype Atom = Atom(
    typ: AtomType,
    val: Dynamic,
    valNum: real,
    lambdaName: string,
    lambdaArgs: seq<Atom>,
    lambdaFn: Dynamic)

  /** The zero value `Atom{}`: every struct literal in the source starts from it. */
  const Blank: Atom := Atom(AtomSymbol, Nil, 0.0, "", [], Nil)

  /** The library routines the core calls but does not define: `strconv.ParseFloat`
      (None when it reports an error) and the `fmt` formatting behind `floatToString`. */
  datatype Host = Host(parseFloat: string -> Option<real>, formatFloat: real -> string)

  /** The words that classification gives a meaning of their own. */
  const Reserved: set<string> := {"lambda", "true", "false"}

  /** What Go's float parser is known to do with the reserved words: reject them. */
  predicate Sound(h: Host) {
    && h.parseFloat("lambda").None?
    && h.parseFloat("true").None?
    && h.parseFloat("false").None?
  }

  /** The short tag names used when printing an atom; the map has no entry for booleans. */
  function AtomTypeToString(t: AtomType): (r: string)
    ensures r == "" <==> t == AtomBoolean
    ensures t == AtomSymbol ==> r == "s"
    ensures t == AtomBuiltin ==> r == "fn"
    ensures t == AtomFloat ==> r == "fl"
    ensures t == AtomQuote ==> r == "qt"
    ensures t == AtomLambda ==> r == "lm"
  {
    var mapping := map[AtomSymbol := "s", AtomBuiltin := "fn", AtomFloat := "fl", AtomQuote := "qt", AtomLambda := "lm"];
    if t in mapping then mapping[t]
    else
      assert t != AtomSymbol && t != AtomBuiltin && t != AtomFloat && t != AtomQuote && t != AtomLambda;
      ""
  }

  lemma AtomTypeToStringInjective(t1: AtomType, t2: AtomType)
    requires t1 != t2
    ensures AtomTypeToString(t1) != AtomTypeToString(t2)
  {
  }

  /** The boolean payload of an atom; the type assertion panics unless `val` holds a bool. */
  function BooleanValue(a: Atom): (r: bool)
    requires a.val.BoolV?
    ensures a.val == BoolV(r)
  {
    a.val.b
  }

  /** `createAtom` accepts an `Atom` or a `string`; any other dynamic type panics. */
  predicate Creatable(v: Dynamic) {
    v.Str? || v.AtomV?
  }

  /** The token text an atom was classified from: its string payload, or the
      spelling of its boolean payload. */
  function TokenOf(a: Atom): string {
    match a.val
    case Str(s) => s
    case BoolV(b) => if b then "true" else "false"
    case _ => ""
  }

  /** `createAtom`: an atom passes through; a token is classified by trying a float
      parse first, then the reserved words, and otherwise becomes a symbol. */
  function CreateAtom(h: Host, v: Dynamic): (r: Atom)
    requires Creatable(v)
    ensures v.AtomV? ==> r == v.atom
    ensures v.Str? ==> TokenOf(r) == v.s
    ensures v.Str? ==> r.typ != AtomBuiltin && r.typ != AtomQuote
    ensures v.Str? ==> (r.typ == AtomFloat <==> h.parseFloat(v.s).Some?)
    ensures v.Str? && r.typ == AtomFloat ==> r.valNum == h.parseFloat(v.s).value
    ensures v.Str? ==> (r.typ == AtomLambda <==> h.parseFloat(v.s).None? && v.s == "lambda")
    ensures v.Str? ==> (r.typ == AtomBoolean <==> h.parseFloat(v.s).None? && (v.s == "true" || v.s == "false"))
    ensures v.Str? ==> (r.typ == AtomSymbol <==> h.parseFloat(v.s).None? && v.s !in Reserved)
    ensures v.Str? && r.typ == AtomBoolean ==> r.val == BoolV(v.s == "true")
    ensures v.Str? && r.typ != AtomBoolean ==> r.val == v
    ensures v.Str? && r.typ != AtomFloat ==> r.valNum == 0.0
    ensures v.Str? ==> r.lambdaName == "" && r.lambdaArgs == [] && r.lambdaFn == Nil
  {
    if v.AtomV? then v.atom
    else
      var parsed := h.parseFloat(v.s);
      if parsed.None? then
        if v.s == "lambda" then Blank.(typ := AtomLambda, val := v)
        else if v.s == "true" then Blank.(typ := AtomBoolean, val := BoolV(true))
        else if v.s == "false" then Blank.(typ := AtomBoolean, val := BoolV(false))
        else Blank.(typ := AtomSymbol, val := v)
      else Blank.(typ := AtomFloat, val := v, valNum := parsed.value)
  }

  /** Classifying a classified value changes nothing. */
  lemma CreateAtomIdempotent(h: Host, v: Dynamic)
    requires Creatable(v)
    ensures CreateAtom(h, AtomV(CreateAtom(h, v))) == CreateAtom(h, v)
  {
  }

  /** With Go's parser, the reserved words get their own tags and payloads. */
  lemma ReservedWordsClassified(h: Host)
    requires Sound(h)
    ensures CreateAtom(h, Str("lambda")).typ == AtomLambda
    ensures CreateAtom(h, Str("lambda")).val == Str("lambda")
    ensures CreateAtom(h, Str("true")).typ == AtomBoolean
    ensures BooleanValue(CreateAtom(h, Str("true")))
    ensures CreateAtom(h, Str("false")).typ == AtomBoolean
    ensures !BooleanValue(CreateAtom(h, Str("false")))
  {
  }

  /** Whatever the parser does, a reserved word is never a symbol. */
  lemma ReservedWordNeverSymbol(h: Host, s: string)
    requires s in Reserved
    ensures CreateAtom(h, Str(s)).typ != AtomSymbol
  {
  }

  /** A classified token that is not a boolean keeps its token as `val`, so
      classifying that `val` again yields the same atom. */
  lemma ReclassifyStable(h: Host, s: string)
    requires CreateAtom(h, Str(s)).typ != AtomBoolean
    ensures Creatable(CreateAtom(h, Str(s)).val)
    ensures CreateAtom(h, CreateAtom(h, Str(s)).val) == CreateAtom(h, Str(s))
  {
  }

  /** Every element of an `Expr` holds an `Atom` (otherwise `item.(Atom)` panics). */
  predicate AllAtoms(items: seq<Dynamic>) {
    forall i :: 0 <= i < |items| ==> items[i].AtomV?
  }

  /** The appending loop of the `Expr` case of `genericToAtomSlice`. */
  function AtomsOf(items: seq<Dynamic>): (r: seq<Atom>)
    requires AllAtoms(items)
    ensures |r| == |items|
    ensures forall i :: 0 <= i < |items| ==> AtomV(r[i]) == items[i]
  {
    if |items| == 0 then []
    else AtomsOf(items[..|items| - 1]) + [items[|items| - 1].atom]
  }

  /** The appending loop of the `Expr` case of `genericToExpr`: each item is
      asserted to be an `Atom` and stored back. */
  function ExprOf(items: seq<Dynamic>): (r: seq<Dynamic>)
    requires AllAtoms(items)
    ensures r == items
  {
    if |items| == 0 then []
    else
      var n := |items| - 1;
      assert items == items[..n] + [items[n]];
      ExprOf(items[..n]) + [AtomV(items[n].atom)]
  }

  /** What `genericToAtomSlice` and `genericToExpr` demand of their argument. */
  predicate Coercible(input: Dynamic) {
    input.ExprV? ==> AllAtoms(input.items)
  }

  /** `genericToAtomSlice`: an `Expr` of atoms becomes the slice of those atoms,
      a single atom a singleton, anything else the empty slice. */
  function GenericToAtomSlice(input: Dynamic): (r: seq<Atom>)
    requires Coercible(input)
    ensures input.ExprV? ==> |r| == |input.items| && forall i :: 0 <= i < |r| ==> AtomV(r[i]) == input.items[i]
    ensures input.AtomV? ==> r == [input.atom]
    ensures !input.ExprV? && !input.AtomV? ==> r == []
  {
    match input
    case ExprV(items) => AtomsOf(items)
    case AtomV(a) => [a]
    case _ => []
  }

  /** `genericToExpr`: the same three cases, producing an `Expr`. */
  function GenericToExpr(input: Dynamic): (r: seq<Dynamic>)
    requires Coercible(input)
    ensures input.ExprV? ==> r == input.items
    ensures input.AtomV? ==> r == [input]
    ensures !input.ExprV? && !input.AtomV? ==> r == []
  {
    match input
    case ExprV(items) => ExprOf(items)
    case AtomV(a) => [AtomV(a)]
    case _ => []
  }

  /** The two coercions agree: the `Expr` is the atom slice with each atom boxed. */
  lemma GenericCoercionsAgree(input: Dynamic)
    requires Coercible(input)
    ensures |GenericToExpr(input)| == |GenericToAtomSlice(input)|
    ensures forall i :: 0 <= i < |GenericToExpr(input)| ==> GenericToExpr(input)[i] == AtomV(GenericToAtomSlice(input)[i])
  {
  }

  /** What `populateLambda` demands: a parameter list at index 1 that coerces and an `Expr` body at index 2. */
  predicate LambdaForm(input: seq<Dynamic>) {
    |input| >= 3 && Coercible(input[1]) && input[2].ExprV?
  }

  /** `populateLambda`: a closure atom whose parameters are `input[1]` as atoms and whose body is `input[2]`. */
  function PopulateLambda(input: seq<Dynamic>): (r: Atom)
    requires LambdaForm(input)
    ensures r.typ == AtomLambda && r.val == Str("lambda")
    ensures r.lambdaFn == input[2]
    ensures r.lambdaArgs == GenericToAtomSlice(input[1])
    ensures input[1].ExprV? ==> |r.lambdaArgs| == |input[1].items|
    ensures input[1].AtomV? ==> r.lambdaArgs == [input[1].atom]
    ensures r.valNum == 0.0 && r.lambdaName == ""
  {
    Blank.(typ := AtomLambda, val := Str("lambda"), lambdaArgs := GenericToAtomSlice(input[1]), lambdaFn := ExprV(input[2].items))
  }

  /** `exprIsConditional`: the value is the builtin atom named `if`. */
  predicate ExprIsConditional(input: Dynamic)
    ensures ExprIsConditional(input) <==> input.AtomV? && input.atom.typ == AtomBuiltin && input.atom.val == Str("if")
  {
    if input.AtomV? then
      if input.atom.typ == AtomBuiltin then input.atom.val == Str("if") else false
    else false
  }

  /** `exprIsBoolean`: the value is an atom tagged boolean. */
  predicate ExprIsBoolean(input: Dynamic)
    ensures ExprIsBoolean(input) <==> input.AtomV? && input.atom.typ == AtomBoolean
  {
    match input
    case AtomV(a) => a.typ == AtomBoolean
    case _ => false
  }

  /** `exprIsLambda`: the value is an atom tagged lambda. */
  predicate ExprIsLambda(input: Dynamic)
    ensures ExprIsLambda(input) <==> input.AtomV? && input.atom.typ == AtomLambda
  {
    match input
    case AtomV(a) => a.typ == AtomLambda
    case _ => false
  }

  /** At most one of the three predicates holds of any value. */
  lemma PredicatesExclusive(input: Dynamic)
    ensures !(ExprIsConditional(input) && ExprIsBoolean(input))
    ensures !(ExprIsConditional(input) && ExprIsLambda(input))
    ensures !(ExprIsBoolean(input) && ExprIsLambda(input))
  {
  }

  /** A classified token is never the conditional: classification never yields a builtin. */
  lemma ClassifiedTokenNeverConditional(h: Host, s: string)
    ensures !ExprIsConditional(AtomV(CreateAtom(h, Str(s))))
    ensures ExprIsLambda(AtomV(CreateAtom(h, Str(s)))) <==> h.parseFloat(s).None? && s == "lambda"
  {
  }

  /** A populated lambda is recognised by `exprIsLambda` and by nothing else. */
  lemma PopulatedLambdaIsLambda(input: seq<Dynamic>)
    requires LambdaForm(input)
    ensures ExprIsLambda(AtomV(PopulateLambda(input)))
    ensures !ExprIsBoolean(AtomV(PopulateLambda(input))) && !ExprIsConditional(AtomV(PopulateLambda(input)))
  {
  }
}
