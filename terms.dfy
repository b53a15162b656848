/** The expressions the syntactic matchers work on, and the atoms of their
    flattened form. The Python type tests of matchpy (`isinstance`,
    `issubclass`, `is_operation`, `is_symbol_wildcard`) become constructor
    tests: an operation is known by its class, and a symbol lists the names of
    the symbol classes it is an instance of. */
module Terms {

  /** An operation class: its name, whether it is commutative or associative,
      and its arity `Arity(min_count, fixed_size)`. */
  datatype OpType = OpType(name: string, commutative: bool, associative: bool, arityMinCount: nat, arityFixedSize: bool)

  /** The expression kinds of matchpy, plus `Unsupported` for any other
      subclass of `Expression`. */
  datatype Expression =
    | Symbol(name: string, classes: set<string>)
    | Wildcard(minCount: nat, fixedSize: bool)
    | SymbolWildcard(symbolType: string)
    | Variable(varName: string, expression: Expression)
    | Operation(op: OpType, operands: seq<Expression>)
    | Unsupported(kind: string)

  /** A term atom of a flatterm or a transition label of a discrimination
      net. */
  datatype Label =
    | Sym(symName: string, symClasses: set<string>)  // a symbol
    | Head(head: OpType)                           // the class of an operation
    | SymbolType(typeName: string)                 // the symbol class of a symbol wildcard
    | Wild(min: nat, fixed: bool)                  // a wildcard, possibly merged
    | AnyWild                                      // the class `Wildcard`, as a transition label
    | End                                          // OPERATION_END
    | Epsilon                                      // EPSILON

  /** `isinstance(symbol, t)` for a symbol class `t`. */
  predicate InstanceOf(l: Label, t: string)
    requires l.Sym?
  {
    t in l.symClasses
  }

  /** How a label changes the operation nesting depth. */
  function Delta(l: Label): int {
    if l.Head? then 1 else if l.End? then -1 else 0
  }
}
