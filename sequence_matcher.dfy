/** `SequenceMatcher` of matchpy/matching/syntactic.py: a discrimination net
    over the middle operands of patterns of the form `f(x*, s1, ..., sn, y*)`,
    where `f` is one non-commutative operation and `x*`, `y*` are star
    wildcards, possibly named by a variable. */
module SequenceMatchers {
  import opened Terms
  import opened Sequences
  import opened FlatTerms
  import opened DiscriminationNets

  /** What `_check_wildcard_and_get_name` returns: the variable name of the
      operand (`None` for an unnamed wildcard), or the `ValueError` it raises. */
  datatype NameResult = Name(name: Option<string>) | NameValueError

  /** A wildcard that matches any number of operands, `_` * 0 in matchpy's
      terms: not of fixed size and with minimum count zero. */
  predicate IsStar(e: Expression) {
    e.Wildcard? && !e.fixedSize && e.minCount == 0
  }

  /** `_check_wildcard_and_get_name`: a variable is looked through once, and
      what remains must be a star wildcard. A symbol wildcard has a fixed
      size and is refused. */
  function CheckWildcardAndGetName(operand: Expression): (r: NameResult)
    ensures r.Name? <==> IsStar(operand) || (operand.Variable? && IsStar(operand.expression))
    ensures r.Name? && operand.Variable? ==> r.name == Some(operand.varName)
    ensures r.Name? && !operand.Variable? ==> r.name == None
    // an accepted operand flattens to one star wildcard atom
    ensures r.Name? ==> Supported(operand) && FlatIter(operand) == [Wild(0, false)]
  {
    var name := if operand.Variable? then Some(operand.varName) else None;
    var inner := if operand.Variable? then operand.expression else operand;
    if !inner.Wildcard? || inner.fixedSize || inner.minCount > 0 then NameValueError
    else Name(name)
  }

  /** `can_match`: the shape checks of `add`, without the check that the
      operation is the one of the patterns added before. */
  function CanMatch(pattern: Expression): (r: bool)
    ensures r ==> pattern.Operation? && !pattern.op.commutative && |pattern.operands| >= 3
    ensures r ==> IsStar(StripVariables(pattern.operands[0])) && IsStar(StripVariables(pattern.operands[|pattern.operands| - 1]))
    ensures !r && pattern.Operation? && !pattern.op.commutative && |pattern.operands| >= 3 ==>
              CheckWildcardAndGetName(pattern.operands[0]).NameValueError? ||
              CheckWildcardAndGetName(pattern.operands[|pattern.operands| - 1]).NameValueError?
  {
    if !pattern.Operation? || pattern.op.commutative then false
    else if |pattern.operands| < 3 then false
    else if CheckWildcardAndGetName(pattern.operands[0]).NameValueError? then false
    else if CheckWildcardAndGetName(pattern.operands[|pattern.operands| - 1]).NameValueError? then false
    else true
  }

  /** A pattern a sequence matcher can match is never syntactic, since its
      first operand is a star wildcard: that is why the sequence matcher
      only puts the operands between the two star wildcards into its net. */
  lemma CanMatchNotSyntactic(pattern: Expression)
    requires CanMatch(pattern) && Supported(pattern)
    ensures !IsSyntactic(FlatTerm(pattern))
  {
    var flats := OperandFlats(pattern);
    assert CheckWildcardAndGetName(pattern.operands[0]).Name?;
    assert flats[0] == [Wild(0, false)];
    assert flats == [flats[0]] + flats[1..];
    assert Concat(flats) == flats[0] + Concat(flats[1..]);
    var s := FlatIter(pattern);
    assert s[1] == Wild(0, false);
    assert NonSyntactic(s[1]);
    MergeSyntactic(s);
  }

  /** What `SequenceMatcher.add` returns: the index of the pattern, one of the
      two errors it raises itself, or an `IndexError` of
      `_generate_net` passed on from the net. */
  datatype SeqAddResult = Index(index: nat) | AddTypeError | AddValueError | NetIndexError

  /** The operands between the first and the last of an operation. */
  function Middle(pattern: Expression): (r: seq<Expression>)
    requires pattern.Operation? && |pattern.operands| >= 2
  {
    pattern.operands[1..|pattern.operands| - 1]
  }

  /** The flatterms of the middle operands. */
  function MiddleFlats(pattern: Expression): (r: seq<seq<Label>>)
    requires pattern.Operation? && |pattern.operands| >= 2 && Supported(pattern)
  {
    var mid := Middle(pattern);
    seq(|mid|, i requires 0 <= i < |mid| => FlatTerm(mid[i]))
  }

  class SequenceMatcher {
    var net: DiscriminationNet<nat>
    /** `_patterns`: each pattern with the names of its first and last
        operand. */
    var patterns: seq<(Expression, Option<string>, Option<string>)>
    /** `operation`: the operation class of the patterns, once the first
        has been added. */
    var operation: Option<OpType>

    /** The net is valid and holds a pattern for each of `_patterns`; every
        stored pattern has the shape `can_match` checks and the operation of
        the matcher, which is not commutative. */
    ghost predicate Valid()
      reads this, net
    {
      net.Valid() && |net.patterns| == |patterns| &&
      (operation.None? ==> patterns == []) && (operation.Some? ==> !operation.value.commutative) &&
      forall i :: 0 <= i < |patterns| ==> CanMatch(patterns[i].0) && patterns[i].0.op == operation.value
    }

    /** `SequenceMatcher()` with no initial patterns. */
    constructor ()
      ensures Valid() && fresh(net) && patterns == [] && operation == None && net.patterns == []
    {
      net := new DiscriminationNet<nat>();
      patterns := [];
      operation := None;
    }

    /** `add`: the first pattern fixes the operation, a `TypeError` refuses
        a pattern that is not a non-commutative operation or not of that
        operation, and a `ValueError` one of fewer than three operands or
        without star wildcards at both ends. The operation stays fixed when
        the `ValueError` comes after it was set. An accepted pattern is
        stored with the names of its end operands, and the merged flatterm
        of its middle operands goes into the net with its index as final
        label. */
    method Add(pattern: Expression) returns (r: SeqAddResult)
      requires Valid() && Supported(pattern)
      modifies this, net
      ensures Valid() && net == old(net)
      ensures r == AddTypeError <==>
                !pattern.Operation? ||
                (old(operation).None? && pattern.op.commutative) ||
                (old(operation).Some? && pattern.op != old(operation).value)
      ensures r == AddTypeError ==> operation == old(operation) && patterns == old(patterns) && net.patterns == old(net.patterns)
      ensures r != AddTypeError ==> operation == Some(pattern.op)
      ensures r != AddTypeError && r != AddValueError <==> (r.Index? || r.NetIndexError?)
      ensures (r.Index? || r.NetIndexError?) <==>
                CanMatch(pattern) && (old(operation).None? || pattern.op == old(operation).value)
      ensures r == AddValueError ==> patterns == old(patterns) && net.patterns == old(net.patterns)
      ensures r.Index? ==> r.index == |old(patterns)|
      ensures r.Index? || r.NetIndexError? ==>
                patterns == old(patterns) + [(pattern, CheckWildcardAndGetName(pattern.operands[0]).name,
                                              CheckWildcardAndGetName(pattern.operands[|pattern.operands| - 1]).name)] &&
                (var index: nat := |old(patterns)|;
                 net.patterns == old(net.patterns) + [(Merge(Concat(MiddleFlats(pattern))), Some(index))])
    {
      if operation.None? {
        if !pattern.Operation? || pattern.op.commutative {
          return AddTypeError;
        }
        operation := Some(pattern.op);
      } else if !pattern.Operation? || pattern.op != operation.value {
        return AddTypeError;
      }
      if |pattern.operands| < 3 {
        return AddValueError;
      }
      var firstName := CheckWildcardAndGetName(pattern.operands[0]);
      if firstName.NameValueError? {
        return AddValueError;
      }
      var lastName := CheckWildcardAndGetName(pattern.operands[|pattern.operands| - 1]);
      if lastName.NameValueError? {
        return AddValueError;
      }
      assert CanMatch(pattern);
      r := Store(pattern, firstName.name, lastName.name);
    }

    /** The part of `add` after the checks: the pattern goes into
        `_patterns` and the merged flatterm of its middle operands into the
        net. */
    method Store(pattern: Expression, firstName: Option<string>, lastName: Option<string>) returns (r: SeqAddResult)
      requires Valid() && Supported(pattern) && CanMatch(pattern) && operation == Some(pattern.op)
      modifies this, net
      ensures Valid() && net == old(net) && operation == old(operation)
      ensures r.Index? || r.NetIndexError?
      ensures r.Index? ==> r.index == |old(patterns)|
      ensures patterns == old(patterns) + [(pattern, firstName, lastName)]
      ensures var index: nat := |old(patterns)|;
              net.patterns == old(net.patterns) + [(Merge(Concat(MiddleFlats(pattern))), Some(index))]
    {
      var index := |patterns|;
      patterns := patterns + [(pattern, firstName, lastName)];
      var flatterm := Merged(MiddleFlats(pattern));
      var added, ghostNet := net.Add(flatterm, Some(index));
      if added.AddIndexError? {
        return NetIndexError;
      }
      r := Index(index);
    }
  }
}
