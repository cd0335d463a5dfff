# golisp value layer and primitives, in Dafny

This project models the value-classification and list-primitive layer of golisp, a small
Lisp interpreter written in Go.

- `atom.dfy` (module `Atoms`) models atom.go. It covers the tagged `Atom` record and Go's
  dynamically typed payload `T`. It also covers `createAtom`, which classifies a raw token,
  the slice coercions `genericToAtomSlice` and `genericToExpr`, the closure constructor
  `populateLambda`, the type predicates, `atomTypeToString` and `BooleanValue`.
- `builtins.dfy` (module `Builtins`) models builtins.go. It covers the registry that
  `initializeBuiltins` fills, `isBuiltIn`, `Quote`, `Car`, `Cdr`, the left folds behind
  `+ - * /`, and `Define`.
- `wrappers.dfy` holds the `Option` type used for the result of the float parser.

Modelling choices:

- Go's `T` is an empty interface. It becomes the datatype `Dynamic`, with one variant per
  dynamic type the core stores or asserts:
  - `Nil`, the zero interface value;
  - `Str`;
  - `BoolV`;
  - `AtomV`;
  - `ExprV`, an `Expr`, which is a slice of `T`;
  - `AtomList`, a `[]Atom`, which is what `Quote` stores.

  `[]Atom` and `Expr` are distinct dynamic types. So `genericToAtomSlice` applied to a
  quote's payload falls through its type switch and yields the empty slice.
- Every struct literal starts from Go's zero `Atom{}`. That value is `Blank`: its tag is
  `atomSymbol`, its payloads are nil and its number is 0.
- Numbers are `real`. The folds are stated exactly, with no IEEE-754 rounding.
- `strconv.ParseFloat` and the `fmt` formatting behind `floatToString` are library code
  that is not part of this model. They are passed in as a `Host` value:
  - `parseFloat` returns `None` where Go returns an error;
  - `formatFloat` produces the text of a float.

  The only thing assumed about the parser is `Sound`: it rejects `"lambda"`, `"true"` and
  `"false"`. Only the lemmas that need this assumption require it. Nothing is assumed about
  which other strings parse. Go also accepts `inf`, `NaN`, exponents and hex floats.
- A Go panic becomes a precondition. Panics come from failed type assertions, out-of-range
  indexing and out-of-range slicing.
- Every primitive except `Define` ignores its `Environment` parameter, so the model drops it
  for them. `Define` writes to that environment. The scope it writes to is modelled as a
  `map<string, Atom>`, and `Define` returns the bound value together with the updated map.

Behaviour of the code worth noting:

- `Cdr` of an empty list panics, because `[1:]` is out of range. So `CdrArgs` requires a
  non-empty list. A singleton list gives an empty quote.
- `Car` and `Cdr` do not check the `atomQuote` tag. They accept any first argument whose
  `val` holds a `[]Atom`.
- `Car` also panics when the list's head holds a boolean. `CarOfQuotedToken` shows that
  `car` of a quoted `true` or `false` atom cannot run.
- Token classification is not total over `T`. `createAtom` panics on any payload that is
  neither a string nor an `Atom`.
- Division by zero is not reported as an error. Go yields an infinity or NaN.
- `exprIsConditional` looks for an `atomBuiltin` atom named `"if"`. Classification never
  produces such an atom, and `"if"` is not in the registry (`ClassifiedTokenNeverConditional`,
  `SpecialFormsNotBuiltIn`).

## Model

| member | source | states |
|---|---|---|
| Atoms.AtomTypeToString | atom.go:28-32 | symbol, builtin, float, quote and lambda are named "s", "fn", "fl", "qt" and "lm"; the name is empty exactly for `atomBoolean`, which the map lacks |
| Atoms.AtomTypeToStringInjective | atom.go:28-32 | two different tags get two different names |
| Atoms.BooleanValue | atom.go:44-46 | requires a bool payload; the result is exactly that payload |
| Atoms.CreateAtom | atom.go:52-82 | an `Atom` passes through unchanged; a string is a float exactly when it parses, with `valNum` the parsed value and `val` the original text; only after a failed parse does "lambda" become a lambda and "true"/"false" a boolean with bool payload; everything else becomes a symbol carrying the token; never a builtin or quote; the token text can be recovered from the result |
| Atoms.CreateAtomIdempotent | atom.go:53-55 | classifying an already classified atom returns it unchanged |
| Atoms.ReservedWordsClassified | atom.go:63-71 | when the parser rejects the reserved words, "lambda" is a lambda atom with val "lambda", and "true"/"false" are booleans whose value is true/false |
| Atoms.ReservedWordNeverSymbol | atom.go:60-74 | a reserved word never becomes a symbol, whatever the float parser does |
| Atoms.ReclassifyStable | atom.go:60-78 | a classified non-boolean atom keeps its token as `val`, and classifying that `val` again gives the same atom |
| Atoms.AtomsOf | atom.go:88-92 | the appending loop yields one atom per item, in order, each the item's atom |
| Atoms.ExprOf | atom.go:104-108 | the appending loop copies the `Expr` unchanged |
| Atoms.GenericToAtomSlice | atom.go:84-98 | an `Expr` of atoms gives a slice of the same length with the i-th atom boxing to the i-th item; an atom gives a singleton; any other payload gives the empty slice |
| Atoms.GenericToExpr | atom.go:100-114 | an `Expr` of atoms gives back the same `Expr`; an atom gives the singleton `Expr`; any other payload gives the empty `Expr` |
| Atoms.GenericCoercionsAgree | atom.go:84-114 | the two coercions have the same shape: the `Expr` result is the slice result with each atom boxed |
| Atoms.PopulateLambda | atom.go:116-118 | requires at least three items and an `Expr` body; the result is a lambda atom with val "lambda", parameters `genericToAtomSlice(input[1])` and body `input[2]` |
| Atoms.ExprIsConditional | atom.go:120-136 | true exactly for an atom tagged builtin whose val is the string "if"; false for every non-atom |
| Atoms.ExprIsBoolean | atom.go:138-145 | true exactly for atoms tagged boolean |
| Atoms.ExprIsLambda | atom.go:147-154 | true exactly for atoms tagged lambda |
| Atoms.PredicatesExclusive | atom.go:120-154 | no value satisfies two of the three type predicates |
| Atoms.ClassifiedTokenNeverConditional | atom.go:52-82 | a classified token is never the conditional, and it is a lambda exactly when it is "lambda" and does not parse |
| Atoms.PopulatedLambdaIsLambda | atom.go:116-118 | a populated lambda satisfies `exprIsLambda` and neither of the other predicates |
| Builtins.IsBuiltIn | builtins.go:7-22 | after initialisation, a name is builtin exactly when it is one of + - * / define quote car cdr |
| Builtins.SpecialFormsNotBuiltIn | builtins.go:7-22 | "if", "lambda", "true" and "false" are not builtins |
| Builtins.RegistryWiring | builtins.go:12-22 | calling each of the eight registered names runs the primitive assigned to it, whenever that primitive accepts the arguments |
| Builtins.Quote | builtins.go:24-26 | the argument list becomes the payload of a quote atom, unchanged and in order; all other fields are zero |
| Builtins.Car | builtins.go:28-30 | requires a non-empty `[]Atom` payload whose head holds a string or an atom; an atom payload is returned unchanged; a string payload is re-classified, so the result's token is that string and it is a float exactly when the string parses |
| Builtins.CarReclassifiesHead | builtins.go:28-30 | `car` of a quoted list gives its head re-classified from its token, so a quoted builtin atom comes back as a symbol |
| Builtins.CarOfQuotedToken | builtins.go:28-30 | `car` of a quoted list headed by a classified token gives that atom back, for example a float with its value; when the head is a boolean, `car` cannot run |
| Builtins.Cdr | builtins.go:32-34 | requires a non-empty `[]Atom` payload; the result is a quote one element shorter, and the old head followed by its payload is the original list |
| Builtins.CarCdrSplitQuote | builtins.go:28-34 | `car` and `cdr` of `quote(head :: rest)` are the re-classified head and `quote(rest)` |
| Builtins.FoldSnoc | builtins.go:36-66 | the arithmetic loops fold left to right: the last argument is applied last |
| Builtins.FoldPlusIsSum | builtins.go:38-40 | the `+=` loop from a seed adds the sum of the numbers |
| Builtins.FoldMinusIsSum | builtins.go:45-48 | the `-=` loop from a seed subtracts the sum of the numbers |
| Builtins.FoldTimesIsProduct | builtins.go:53-56 | the `*=` loop from a seed multiplies by the product of the numbers |
| Builtins.FoldOverIsQuotient | builtins.go:61-64 | the `/=` loop over non-zero divisors divides the seed by their product |
| Builtins.Add | builtins.go:36-42 | the result is a float atom whose number is the sum of the arguments' numbers, 0 for no arguments |
| Builtins.Subtract | builtins.go:44-50 | requires one argument; the result is a float atom holding the first number minus the sum of the rest |
| Builtins.Multiply | builtins.go:52-58 | requires one argument; the result is a float atom holding the product of all numbers |
| Builtins.Divide | builtins.go:60-66 | requires one argument and non-zero divisors; the result is a float atom holding the first number divided by the product of the rest |
| Builtins.SingleArgumentPassesThrough | builtins.go:36-66 | a single argument passes through all four operators unchanged, and `+` of nothing is 0 |
| Builtins.SubtractAssociatesLeft | builtins.go:44-50 | `-(a, ..., y)` equals `-(a, ...) - y`, so `-(a,b,c) = (a-b)-c` |
| Builtins.DivideAssociatesLeft | builtins.go:60-66 | `/(a, ..., y)` equals `/(a, ...) / y` for non-zero divisors |
| Builtins.Define | builtins.go:68-76 | requires two arguments and a string name; returns the second argument unchanged, binds the name to it, and leaves every other binding as it was |
| Builtins.DefineOverwrites | builtins.go:68-76 | defining a name twice keeps only the later value |
| Builtins.DefineCommutes | builtins.go:68-76 | definitions of different names do not interfere |
| Builtins.Call | builtins.go:7-22 | dispatching a registered name runs its primitive: `+` and `*` give the float sum and product, `-` the first number minus the sum of the rest, `/` the `Divide` result, `car`/`cdr` the `Car`/`Cdr` results, `quote` wraps its arguments; only `define` changes the environment, binding the name to the returned value |

## Left out

- `Atom.String` and `floatToString` are left out. They are `fmt` formatting. The text of an
  arithmetic result is the host's `formatFloat`, which is not modelled further.
- The `" => "` line that `Define` prints for a lambda is left out. It is console output and
  does not affect the result.
- `strconv.ParseFloat`'s grammar is library code that is not part of this model. It is the
  `Host.parseFloat` parameter, and the only fact assumed about it is `Sound`.
- IEEE-754 rounding, infinities, NaN and signed zero are left out. Numbers are reals.
- Builtins.Divide: requires non-zero divisors. In Go a zero divisor gives an infinity or NaN
  instead of a panic, and reals have no such values.
- The mutable global `builtins` map is a constant `Registry`, because nothing writes to it
  after `initializeBuiltins`.
- `Environment` is not part of this model. Its parent chain and lookup are in files not
  covered here. Only the single-scope effect of `set` is modelled, as a map update.
- The evaluator, tokenizer, parser and REPL are not part of this model.
