/** Conditions as written, as parsed, and as evaluated. */
module ConditionMeaning {
  import opened Bytes
  import opened Conditions

  /** A condition as the user means it. */
  datatype Tree =
    | Equals(left: string, right: string)
    | Both(first: Tree, second: Tree)
    | Either(first: Tree, second: Tree)
    | Negation(first: Tree)

  /** The canonical text: operands in angle brackets, no blanks. */
  function Print(t: Tree): string {
    match t
    case Equals(a, b) => "valequal(" + (Bracketed(a) + ("," + (Bracketed(b) + ")")))
    case Both(l, r) => "and(" + (Print(l) + ("," + (Print(r) + ")")))
    case Either(l, r) => "or(" + (Print(l) + ("," + (Print(r) + ")")))
    case Negation(c) => "not(" + (Print(c) + ")")
  }

  function Bracketed(a: string): string {
    "<" + a + ">"
  }

  /** Operands without angle brackets of their own; commas and parentheses are welcome. */
  predicate Plain(a: string) {
    '<' !in a && '>' !in a
  }

  predicate AllPlain(t: Tree) {
    match t
    case Equals(a, b) => Plain(a) && Plain(b)
    case Both(l, r) => AllPlain(l) && AllPlain(r)
    case Either(l, r) => AllPlain(l) && AllPlain(r)
    case Negation(c) => AllPlain(c)
  }

  /** Every operand encodes. */
  predicate Encodable(t: Tree, encode: TargetEncoder) {
    match t
    case Equals(a, b) => encode(a).Some? && encode(b).Some?
    case Both(l, r) => Encodable(l, encode) && Encodable(r, encode)
    case Either(l, r) => Encodable(l, encode) && Encodable(r, encode)
    case Negation(c) => Encodable(c, encode)
  }

  function NodeOf(t: Tree, encode: TargetEncoder): Node
    requires Encodable(t, encode)
  {
    match t
    case Equals(a, b) => Node(ValEqual, a, b, encode(a).value, encode(b).value, None, None)
    case Both(l, r) => Node(And, "", "", [], [], Some(NodeOf(l, encode)), Some(NodeOf(r, encode)))
    case Either(l, r) => Node(Or, "", "", [], [], Some(NodeOf(l, encode)), Some(NodeOf(r, encode)))
    case Negation(c) => Node(Not, "", "", [], [], Some(NodeOf(c, encode)), None)
  }

  // ---- scanning canonical text ----

  lemma {:induction false} InsideBrackets(a: string, rest: string, atComma: bool)
    requires Plain(a) && rest != [] && Stops(0, rest[0], atComma)
    ensures OperandLength(a + ">" + rest, 1, atComma) == |a| + 1
    decreases |a|
  {
    var s := a + ">" + rest;
    if a == [] {
      assert s[0] == '>' && s[1..] == rest;
      assert Depth(0, rest[0]) == 0;
    } else {
      assert s[0] == a[0] && s[1..] == a[1..] + ">" + rest;
      InsideBrackets(a[1..], rest, atComma);
    }
  }

  lemma {:induction false} BracketedOperand(a: string, rest: string, atComma: bool)
    requires Plain(a) && rest != [] && Stops(0, rest[0], atComma)
    ensures OperandIn(Bracketed(a) + rest, atComma) == (a, rest)
  {
    var s := Bracketed(a) + rest;
    assert s[0] == '<' && s[1..] == a + ">" + rest;
    InsideBrackets(a, rest, atComma);
    assert s[..|a| + 2] == Bracketed(a);
    assert Bracketed(a)[1..|a| + 1] == a;
  }

  lemma Prefixed(k: string, tail: string)
    ensures StartsWith(k + tail, k) && (k + tail)[|k|..] == tail
  {
    assert (k + tail)[..|k|] == k;
  }

  lemma OtherKeyword(s: string, k: string)
    requires s != [] && k != [] && s[0] != k[0]
    ensures !StartsWith(s, k)
  {
    if |k| <= |s| {
      assert s[..|k|][0] == s[0];
    }
  }

  /** What parsing does at each keyword, and where there is none. */
  lemma {:induction false} Dispatch(tail: string, encode: TargetEncoder)
    ensures ParseExpression("valequal(" + tail, encode) == ParseValEqual(tail, encode)
    ensures ParseExpression("and(" + tail, encode) == ParseLogical(And, tail, encode)
    ensures ParseExpression("or(" + tail, encode) == ParseLogical(Or, tail, encode)
    ensures ParseExpression("not(" + tail, encode) == ParseLogical(Not, tail, encode)
    ensures ParseExpression(")" + tail, encode) == Parsed(None, ")" + tail)
  {
    hide StartsWith, ParseValEqual, ParseLogical;
    Prefixed("valequal(", tail);
    Prefixed("and(", tail);
    Prefixed("or(", tail);
    Prefixed("not(", tail);
    OtherKeyword("and(" + tail, "valequal(");
    OtherKeyword("or(" + tail, "valequal(");
    OtherKeyword("or(" + tail, "and(");
    OtherKeyword("not(" + tail, "valequal(");
    OtherKeyword("not(" + tail, "and(");
    OtherKeyword("not(" + tail, "or(");
    OtherKeyword(")" + tail, "valequal(");
    OtherKeyword(")" + tail, "and(");
    OtherKeyword(")" + tail, "or(");
    OtherKeyword(")" + tail, "not(");
  }

  lemma {:induction false} EqualsRoundTrip(a: string, b: string, rest: string, encode: TargetEncoder)
    requires Encodable(Equals(a, b), encode) && Plain(a) && Plain(b)
    ensures ParseValEqual(Bracketed(a) + ("," + (Bracketed(b) + (")" + rest))), encode)
         == Parsed(Some(NodeOf(Equals(a, b), encode)), rest)
  {
    hide OperandIn, Bracketed, Plain;
    var behind := "," + (Bracketed(b) + (")" + rest));
    assert behind[0] == ',' && behind[1..] == Bracketed(b) + (")" + rest);
    BracketedOperand(a, behind, true);
    BracketedOperand(b, ")" + rest, false);
    assert (")" + rest)[1..] == rest;
  }

  lemma {:induction false} LogicalRoundTrip(kind: Kind, l: Node, r: Node, left: string, right: string, rest: string,
                                            encode: TargetEncoder)
    requires ParseExpression(left + ("," + (right + (")" + rest))), encode) ==
             Parsed(Some(l), "," + (right + (")" + rest)))
    requires ParseExpression(right + (")" + rest), encode) == Parsed(Some(r), ")" + rest)
    ensures ParseLogical(kind, left + ("," + (right + (")" + rest))), encode)
         == Parsed(Some(Node(kind, "", "", [], [], Some(l), Some(r))), rest)
  {
    hide ParseExpression, SkipSpaces;
    var behind := "," + (right + (")" + rest));
    assert behind[0] == ',' && behind[1..] == right + (")" + rest);
    assert (")" + rest)[0] == ')' && (")" + rest)[1..] == rest;
  }

  lemma {:induction false} OneArgumentRoundTrip(kind: Kind, n: Node, inner: string, rest: string, encode: TargetEncoder)
    requires ParseExpression(inner + (")" + rest), encode) == Parsed(Some(n), ")" + rest)
    ensures ParseLogical(kind, inner + (")" + rest), encode)
         == Parsed(Some(Node(kind, "", "", [], [], Some(n), None)), rest)
  {
    hide ParseExpression, SkipSpaces;
    assert (")" + rest)[0] == ')' && (")" + rest)[1..] == rest;
    Dispatch(rest, encode);
  }

  /** Parsing canonical text gives its tree back and stops right behind it. */
  lemma {:induction false} PlainRoundTrip(t: Tree, rest: string, encode: TargetEncoder)
    requires Encodable(t, encode) && AllPlain(t)
    ensures ParseExpression(Print(t) + rest, encode) == Parsed(Some(NodeOf(t, encode)), rest)
  {
    hide ParseExpression, ParseLogical, ParseValEqual, Plain, Bracketed;
    match t {
      case Equals(a, b) =>
        EqualsRoundTrip(a, b, rest, encode);
        Pulled("valequal(", Bracketed(a), Bracketed(b), rest);
        Dispatch(Bracketed(a) + ("," + (Bracketed(b) + (")" + rest))), encode);
      case Both(l, r) =>
        PlainRoundTrip(l, "," + (Print(r) + (")" + rest)), encode);
        PlainRoundTrip(r, ")" + rest, encode);
        LogicalRoundTrip(And, NodeOf(l, encode), NodeOf(r, encode), Print(l), Print(r), rest, encode);
        Pulled("and(", Print(l), Print(r), rest);
        Dispatch(Print(l) + ("," + (Print(r) + (")" + rest))), encode);
      case Either(l, r) =>
        PlainRoundTrip(l, "," + (Print(r) + (")" + rest)), encode);
        PlainRoundTrip(r, ")" + rest, encode);
        LogicalRoundTrip(Or, NodeOf(l, encode), NodeOf(r, encode), Print(l), Print(r), rest, encode);
        Pulled("or(", Print(l), Print(r), rest);
        Dispatch(Print(l) + ("," + (Print(r) + (")" + rest))), encode);
      case Negation(c) =>
        PlainRoundTrip(c, ")" + rest, encode);
        OneArgumentRoundTrip(Not, NodeOf(c, encode), Print(c), rest, encode);
        PulledOne("not(", Print(c), rest);
        Dispatch(Print(c) + (")" + rest), encode);
    }
  }

  // ---- operands with angle brackets of their own ----

  function DepthAfter(s: string, angle: int): int {
    if s == [] then angle else DepthAfter(s[1..], Depth(angle, s[0]))
  }

  lemma {:induction false} DepthOfSum(a: string, b: string, angle: int)
    ensures DepthAfter(a + b, angle) == DepthAfter(b, DepthAfter(a, angle))
    decreases |a|
  {
    if a == [] {
      assert a + b == b;
    } else {
      assert (a + b)[0] == a[0] && (a + b)[1..] == a[1..] + b;
      DepthOfSum(a[1..], b, Depth(angle, a[0]));
    }
  }

  lemma {:induction false} OpeningsRemain(a: string, angle: int)
    requires '>' !in a
    ensures DepthAfter(a, angle) >= angle && ('<' in a ==> DepthAfter(a, angle) > angle)
  {
    if a != [] {
      assert a[0] in a;
      OpeningsRemain(a[1..], Depth(angle, a[0]));
    }
  }

  /** An operand that ends before the text does ends at a stop outside all brackets. */
  lemma {:induction false} EndsAtStop(s: string, angle: int, atComma: bool)
    ensures var n := OperandLength(s, angle, atComma);
            n < |s| ==> s[n] in {',', ')'} && DepthAfter(s[..n], angle) == 0
  {
    if s != [] {
      var depth := Depth(angle, s[0]);
      if !Stops(depth, s[0], atComma) {
        EndsAtStop(s[1..], depth, atComma);
        var n := OperandLength(s[1..], depth, atComma);
        assert s[..n + 1][1..] == s[1..][..n];
      }
    }
  }

  lemma {:induction false} AllOpenings(a: string, i: nat)
    requires i < |a| && a == ("<" + a)[..|a|]
    ensures a[i] == '<'
  {
    assert a[i] == ("<" + a)[i];
    if i > 0 {
      AllOpenings(a, i - 1);
    }
  }

  lemma NotCutShort(a: string, rest: string, atComma: bool)
    requires a != []
    ensures var s := Bracketed(a) + rest; s[..OperandLength(s, 0, atComma)] != a
  {
    hide OperandLength, DepthAfter;
    var s := Bracketed(a) + rest;
    var n := OperandLength(s, 0, atComma);
    EndsAtStop(s, 0, atComma);
    if s[..n] == a {
      assert s[..n] == ("<" + a)[..|a|] && s[n] == a[n - 1];
      AllOpenings(a, n - 1);
    }
  }

  lemma NotWithinBrackets(a: string, rest: string, atComma: bool)
    requires '<' in a && '>' !in a && rest != []
    ensures var s := Bracketed(a) + rest; s[..OperandLength(s, 0, atComma)] != Bracketed(a)
  {
    hide OperandLength, DepthAfter;
    EndsAtStop(Bracketed(a) + rest, 0, atComma);
    OpeningsOutweigh(a);
  }

  /** An operand that has angle brackets of its own is never read back as it was written. */
  lemma {:induction false} UnplainOperand(a: string, rest: string, atComma: bool)
    requires !Plain(a) && rest != []
    ensures OperandIn(Bracketed(a) + rest, atComma).0 != a
  {
    hide OperandLength, SkipSpaces;
    var s := Bracketed(a) + rest;
    SkipsNothing(s);
    var text := s[..OperandLength(s, 0, atComma)];
    if text == a {
      NotCutShort(a, rest, atComma);
    } else if ProcessOperand(text) == a {
      TakenOff(text, a);
      NotWithinBrackets(a, rest, atComma);
    }
  }

  lemma TakenOff(text: string, a: string)
    requires text != a && ProcessOperand(text) == a
    ensures text == Bracketed(a) && '>' !in a
  {
    assert text == "<" + text[1..|text| - 1] + ">";
  }

  lemma OpeningsOutweigh(a: string)
    requires '>' !in a && '<' in a
    ensures DepthAfter(Bracketed(a), 0) > 0
  {
    DepthOfSum("<" + a, ">", 0);
    DepthOfSum("<", a, 0);
    OpeningsRemain(a, 1);
  }

  /** A comparison is read back only when its operands are plain. */
  lemma {:induction false} EqualsUnplain(a: string, b: string, rest: string, encode: TargetEncoder)
    requires Encodable(Equals(a, b), encode)
    requires var p := ParseValEqual(Bracketed(a) + ("," + (Bracketed(b) + (")" + rest))), encode);
             p.Parsed? && p.node == Some(NodeOf(Equals(a, b), encode))
    ensures Plain(a) && Plain(b)
  {
    hide OperandIn, Bracketed, Plain;
    var behind := "," + (Bracketed(b) + (")" + rest));
    assert behind[0] == ',' && behind[1..] == Bracketed(b) + (")" + rest);
    if !Plain(a) {
      UnplainOperand(a, behind, true);
    } else {
      BracketedOperand(a, behind, true);
      if !Plain(b) {
        UnplainOperand(b, ")" + rest, false);
      }
    }
  }

  lemma {:induction false} LogicalUnplain(kind: Kind, l: Tree, r: Tree, rest: string, encode: TargetEncoder)
    requires Encodable(l, encode) && Encodable(r, encode)
    requires var p := ParseLogical(kind, Print(l) + ("," + (Print(r) + (")" + rest))), encode);
             p.Parsed? && p.node.value.first == Some(NodeOf(l, encode))
               && p.node.value.second == Some(NodeOf(r, encode))
    ensures ReadBack(l, "," + (Print(r) + (")" + rest)), encode)
    ensures AllPlain(l) ==> ReadBack(r, ")" + rest, encode)
  {
    hide ParseExpression, SkipSpaces;
    var behind := "," + (Print(r) + (")" + rest));
    assert behind[0] == ',' && behind[1..] == Print(r) + (")" + rest);
    SkipsNothing(behind);
    if AllPlain(l) {
      PlainRoundTrip(l, behind, encode);
    }
  }

  lemma SkipsNothing(s: string)
    requires s != [] && !IsSpace(s[0])
    ensures SkipSpaces(s) == s
  {
  }

  /** The tree comes back, whatever is left of the text. */
  predicate ReadBack(t: Tree, rest: string, encode: TargetEncoder)
    requires Encodable(t, encode)
  {
    var p := ParseExpression(Print(t) + rest, encode);
    p.Parsed? && p.node == Some(NodeOf(t, encode))
  }

  lemma {:induction false} ReadBackIsPlain(t: Tree, rest: string, encode: TargetEncoder)
    requires Encodable(t, encode) && ReadBack(t, rest, encode)
    ensures AllPlain(t)
  {
    hide ParseExpression, ParseLogical, ParseValEqual, Plain, Bracketed;
    match t {
      case Equals(a, b) =>
        Pulled("valequal(", Bracketed(a), Bracketed(b), rest);
        Dispatch(Bracketed(a) + ("," + (Bracketed(b) + (")" + rest))), encode);
        EqualsUnplain(a, b, rest, encode);
      case Both(l, r) =>
        Pulled("and(", Print(l), Print(r), rest);
        Dispatch(Print(l) + ("," + (Print(r) + (")" + rest))), encode);
        LogicalUnplain(And, l, r, rest, encode);
        ReadBackIsPlain(l, "," + (Print(r) + (")" + rest)), encode);
        ReadBackIsPlain(r, ")" + rest, encode);
      case Either(l, r) =>
        Pulled("or(", Print(l), Print(r), rest);
        Dispatch(Print(l) + ("," + (Print(r) + (")" + rest))), encode);
        LogicalUnplain(Or, l, r, rest, encode);
        ReadBackIsPlain(l, "," + (Print(r) + (")" + rest)), encode);
        ReadBackIsPlain(r, ")" + rest, encode);
      case Negation(c) =>
        PulledOne("not(", Print(c), rest);
        Dispatch(Print(c) + (")" + rest), encode);
        NegationUnplain(c, rest, encode);
        ReadBackIsPlain(c, ")" + rest, encode);
    }
  }

  lemma NegationUnplain(c: Tree, rest: string, encode: TargetEncoder)
    requires Encodable(c, encode)
    requires var p := ParseLogical(Not, Print(c) + (")" + rest), encode);
             p.Parsed? && p.node.value.first == Some(NodeOf(c, encode))
    ensures ReadBack(c, ")" + rest, encode)
  {
    hide ParseExpression, SkipSpaces;
  }

  /** Canonical text is parsed back to its tree, and left right behind it, exactly when none of
      its operands has angle brackets of its own. */
  lemma {:induction false} ConditionRoundTrip(t: Tree, rest: string, encode: TargetEncoder)
    requires Encodable(t, encode)
    ensures ParseExpression(Print(t) + rest, encode) == Parsed(Some(NodeOf(t, encode)), rest) <==> AllPlain(t)
  {
    hide ParseExpression, AllPlain;
    if AllPlain(t) {
      PlainRoundTrip(t, rest, encode);
    } else if ReadBack(t, rest, encode) {
      ReadBackIsPlain(t, rest, encode);
    }
  }

  lemma Pulled(k: string, a: string, b: string, rest: string)
    ensures (k + (a + ("," + (b + ")")))) + rest == k + (a + ("," + (b + (")" + rest))))
  {
  }

  lemma PulledOne(k: string, a: string, rest: string)
    ensures (k + (a + ")")) + rest == k + (a + (")" + rest))
  {
  }

  // ---- evaluation ----

  /** Reading an encoded operand. */
  type Access = seq<byte> -> u64

  /** An argument: the operand's value where it has one, otherwise the truth of its condition;
      a missing condition counts as true. */
  function Datum(code: seq<byte>, sub: Option<Node>, access: Access): u64
    decreases sub, 1
  {
    if code != [] then access(code) else if Evaluate(sub, access) then 1 else 0
  }

  function Evaluate(n: Option<Node>, access: Access): bool
    decreases n, 0
  {
    match n
    case None => true
    case Some(node) =>
      var data1 := Datum(node.code1, node.first, access);
      var data2 := Datum(node.code2, node.second, access);
      match node.kind
      case ValEqual => data1 == data2
      case And => data1 != 0 && data2 != 0
      case Or => data1 != 0 || data2 != 0
      case Not => data1 == 0
  }

  /** Ordinary truth of a condition, given the values of its operands. */
  predicate Holds(t: Tree, value: string -> u64) {
    match t
    case Equals(a, b) => value(a) == value(b)
    case Both(l, r) => Holds(l, value) && Holds(r, value)
    case Either(l, r) => Holds(l, value) || Holds(r, value)
    case Negation(c) => !Holds(c, value)
  }

  /** Every operand encodes, and to something. */
  predicate Usable(t: Tree, encode: TargetEncoder) {
    match t
    case Equals(a, b) => encode(a).Some? && encode(b).Some? && encode(a).value != [] && encode(b).value != []
    case Both(l, r) => Usable(l, encode) && Usable(r, encode)
    case Either(l, r) => Usable(l, encode) && Usable(r, encode)
    case Negation(c) => Usable(c, encode)
  }

  lemma {:induction false} UsableIsEncodable(t: Tree, encode: TargetEncoder)
    requires Usable(t, encode)
    ensures Encodable(t, encode)
  {
    match t {
      case Equals(a, b) =>
      case Both(l, r) =>
        UsableIsEncodable(l, encode);
        UsableIsEncodable(r, encode);
      case Either(l, r) =>
        UsableIsEncodable(l, encode);
        UsableIsEncodable(r, encode);
      case Negation(c) =>
        UsableIsEncodable(c, encode);
    }
  }

  ghost predicate ValuesAgree(t: Tree, encode: TargetEncoder, access: Access, value: string -> u64)
    requires Usable(t, encode)
  {
    match t
    case Equals(a, b) => value(a) == access(encode(a).value) && value(b) == access(encode(b).value)
    case Both(l, r) => ValuesAgree(l, encode, access, value) && ValuesAgree(r, encode, access, value)
    case Either(l, r) => ValuesAgree(l, encode, access, value) && ValuesAgree(r, encode, access, value)
    case Negation(c) => ValuesAgree(c, encode, access, value)
  }

  /** The evaluator gives conditions of any depth their ordinary truth value. */
  lemma {:induction false} EvaluationIsTruth(t: Tree, encode: TargetEncoder, access: Access, value: string -> u64)
    requires Usable(t, encode) && ValuesAgree(t, encode, access, value)
    ensures Encodable(t, encode) && Evaluate(Some(NodeOf(t, encode)), access) == Holds(t, value)
  {
    UsableIsEncodable(t, encode);
    match t {
      case Equals(a, b) =>
      case Both(l, r) =>
        EvaluationIsTruth(l, encode, access, value);
        EvaluationIsTruth(r, encode, access, value);
      case Either(l, r) =>
        EvaluationIsTruth(l, encode, access, value);
        EvaluationIsTruth(r, encode, access, value);
      case Negation(c) =>
        EvaluationIsTruth(c, encode, access, value);
    }
  }

  /** Whether a condition text is met; none when its operands cannot be encoded. */
  method IsConditionMet(condition: string, encode: TargetEncoder, access: Access) returns (r: Option<bool>)
    ensures condition == "" ==> r == Some(true)
    ensures
      condition != "" ==>
        r == match ParseExpression(condition, encode)
             case Thrown => None
             case Parsed(node, _) => Some(Evaluate(node, access))
  {
    hide ParseExpression, Evaluate;
    if condition == "" {
      return Some(true);
    }
    var parser := new Parser(condition, encode);
    var root, thrown := parser.Parse();
    return if thrown then None else Some(Evaluate(root, access));
  }

  /** A condition written canonically, parsed and evaluated, means what it says. */
  lemma {:induction false} WrittenConditionMeansWhatItSays(t: Tree, encode: TargetEncoder, access: Access,
                                                           value: string -> u64)
    requires AllPlain(t) && Usable(t, encode) && ValuesAgree(t, encode, access, value)
    ensures ParseExpression(Print(t), encode).Parsed?
    ensures Evaluate(ParseExpression(Print(t), encode).node, access) == Holds(t, value)
  {
    UsableIsEncodable(t, encode);
    PlainRoundTrip(t, "", encode);
    assert Print(t) + "" == Print(t);
    EvaluationIsTruth(t, encode, access, value);
  }

  lemma {:induction false} EvaluateOne(n: Node, access: Access)
    ensures Evaluate(Some(Node(And, "", "", [], [], Some(n), None)), access) == Evaluate(Some(n), access)
    ensures Evaluate(Some(Node(Or, "", "", [], [], Some(n), None)), access)
    ensures Evaluate(None, access)
  {
  }

  /** With one argument, a conjunction is that argument and a disjunction is true: a missing
      condition counts as true, and so does no condition at all. */
  lemma {:induction false} MissingArgument(t: Tree, encode: TargetEncoder, access: Access, value: string -> u64)
    requires AllPlain(t) && Usable(t, encode) && ValuesAgree(t, encode, access, value)
    ensures var p := ParseExpression("and(" + (Print(t) + ")"), encode);
            p.Parsed? && Evaluate(p.node, access) == Holds(t, value)
    ensures var p := ParseExpression("or(" + (Print(t) + ")"), encode);
            p.Parsed? && Evaluate(p.node, access)
    ensures Evaluate(None, access)
  {
    hide ParseExpression, ParseLogical, Evaluate, Holds, Print;
    UsableIsEncodable(t, encode);
    EvaluateOne(NodeOf(t, encode), access);
    PlainRoundTrip(t, ")", encode);
    assert ")" + "" == ")";
    OneArgumentRoundTrip(And, NodeOf(t, encode), Print(t), "", encode);
    OneArgumentRoundTrip(Or, NodeOf(t, encode), Print(t), "", encode);
    Dispatch(Print(t) + ")", encode);
    EvaluationIsTruth(t, encode, access, value);
  }
}
