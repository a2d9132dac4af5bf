/** Blanks between the parts of a condition make no difference. */
module ConditionBlanks {
  import opened Bytes
  import opened Conditions
  import opened ConditionMeaning

  predicate IsBlank(s: string) {
    forall k :: 0 <= k < |s| ==> s[k] in {' ', '\t', '\n', '\r', 11 as char, 12 as char}
  }

  /** Leading blanks are skipped, and nothing else. */
  lemma {:induction false} SkipsBlanks(b: string, s: string)
    requires IsBlank(b) && (s != "" ==> !IsBlank(s[..1]))
    ensures SkipSpaces(b + s) == s
  {
    if b == "" {
      assert b + s == s;
      if s != "" {
        assert s[..1][0] == s[0];
      }
    } else {
      assert (b + s)[0] == b[0] && (b + s)[1..] == b[1..] + s;
      SkipsBlanks(b[1..], s);
    }
  }

  /** The blanks written in a condition: in front of it, before what separates or ends its parts,
      and those within its parts. */
  datatype Gaps = Gaps(front: string, middle: string, back: string, parts: seq<Gaps>)

  function Part(g: Gaps, k: nat): Gaps {
    if k < |g.parts| then g.parts[k] else Gaps("", "", "", [])
  }

  predicate AllBlank(t: Tree, g: Gaps) {
    && IsBlank(g.front) && IsBlank(g.middle) && IsBlank(g.back)
    && match t
       case Equals(_, _) => true
       case Both(l, r) => AllBlank(l, Part(g, 0)) && AllBlank(r, Part(g, 1))
       case Either(l, r) => AllBlank(l, Part(g, 0)) && AllBlank(r, Part(g, 1))
       case Negation(c) => AllBlank(c, Part(g, 0))
  }

  /** The canonical text with blanks: in front of keywords, operands, commas and parentheses, but
      not behind an operand, where they would belong to it. */
  function PrintWith(t: Tree, g: Gaps): string {
    match t
    case Equals(a, b) => g.front + ("valequal(" + (g.middle + (Bracketed(a) + ("," + (g.back + (Bracketed(b) + ")"))))))
    case Both(l, r) =>
      g.front + ("and(" + (PrintWith(l, Part(g, 0)) + (g.middle + ("," + (PrintWith(r, Part(g, 1)) + (g.back + ")"))))))
    case Either(l, r) =>
      g.front + ("or(" + (PrintWith(l, Part(g, 0)) + (g.middle + ("," + (PrintWith(r, Part(g, 1)) + (g.back + ")"))))))
    case Negation(c) => g.front + ("not(" + (PrintWith(c, Part(g, 0)) + (g.middle + ")")))
  }

  lemma BlanksInFront(b: string, s: string, encode: TargetEncoder)
    requires IsBlank(b) && s != "" && !IsBlank(s[..1])
    ensures ParseExpression(b + s, encode) == ParseExpression(s, encode)
  {
    hide ParseValEqual, ParseLogical, KeywordOf, IsBlank;
    SkipsBlanks(b, s);
    SkipsBlanks("", s) by { NoBlanks(); }
    assert "" + s == s;
  }

  lemma NoBlanks()
    ensures IsBlank("")
  {
  }

  lemma OperandBehindBlanks(b: string, s: string, atComma: bool)
    requires IsBlank(b) && s != "" && !IsBlank(s[..1])
    ensures OperandIn(b + s, atComma) == OperandIn(s, atComma)
  {
    hide OperandLength, ProcessOperand, IsBlank;
    SkipsBlanks(b, s);
    SkipsBlanks("", s) by { NoBlanks(); }
    assert "" + s == s;
  }

  lemma BracketIsNoBlank(a: string, s: string)
    ensures Bracketed(a) + s != "" && !IsBlank((Bracketed(a) + s)[..1])
  {
    assert (Bracketed(a) + s)[..1][0] == '<';
  }

  lemma MarkIsNoBlank(c: char, s: string)
    requires c == ',' || c == ')'
    ensures !IsBlank(([c] + s)[..1]) && ([c] + s)[1..] == s
  {
    assert ([c] + s)[..1][0] == c;
  }

  lemma {:induction false} EqualsWithBlanks(a: string, b: string, middle: string, back: string, rest: string,
                                            encode: TargetEncoder)
    requires Encodable(Equals(a, b), encode) && Plain(a) && Plain(b) && IsBlank(middle) && IsBlank(back)
    ensures ParseValEqual(middle + (Bracketed(a) + ("," + (back + (Bracketed(b) + (")" + rest))))), encode)
         == Parsed(Some(NodeOf(Equals(a, b), encode)), rest)
  {
    hide OperandIn, Bracketed, Plain, IsBlank;
    var second := Bracketed(b) + (")" + rest);
    var behind := "," + (back + second);
    assert behind[0] == ',' && behind[1..] == back + second;
    BracketIsNoBlank(a, behind);
    OperandBehindBlanks(middle, Bracketed(a) + behind, true);
    BracketedOperand(a, behind, true);
    BracketIsNoBlank(b, ")" + rest);
    OperandBehindBlanks(back, second, false);
    BracketedOperand(b, ")" + rest, false);
    assert (")" + rest)[1..] == rest;
  }

  lemma {:induction false} LogicalWithBlanks(kind: Kind, l: Node, r: Node, left: string, right: string,
                                             middle: string, back: string, rest: string, encode: TargetEncoder)
    requires IsBlank(middle) && IsBlank(back)
    requires
      var behind := middle + ("," + (right + (back + (")" + rest))));
      ParseExpression(left + behind, encode) == Parsed(Some(l), behind)
    requires ParseExpression(right + (back + (")" + rest)), encode) == Parsed(Some(r), back + (")" + rest))
    ensures ParseLogical(kind, left + (middle + ("," + (right + (back + (")" + rest))))), encode)
         == Parsed(Some(Node(kind, "", "", [], [], Some(l), Some(r))), rest)
  {
    hide ParseExpression, SkipSpaces, IsBlank;
    var tail := right + (back + (")" + rest));
    MarkIsNoBlank(',', tail);
    SkipsBlanks(middle, "," + tail);
    MarkIsNoBlank(')', rest);
    SkipsBlanks(back, ")" + rest);
  }

  lemma {:induction false} NegationWithBlanks(n: Node, inner: string, middle: string, rest: string,
                                              encode: TargetEncoder)
    requires IsBlank(middle)
    requires ParseExpression(inner + (middle + (")" + rest)), encode) == Parsed(Some(n), middle + (")" + rest))
    ensures ParseLogical(Not, inner + (middle + (")" + rest)), encode)
         == Parsed(Some(Node(Not, "", "", [], [], Some(n), None)), rest)
  {
    hide ParseExpression, SkipSpaces, IsBlank;
    MarkIsNoBlank(')', rest);
    SkipsBlanks(middle, ")" + rest);
    SkipsBlanks("", ")" + rest) by { NoBlanks(); }
    assert "" + (")" + rest) == ")" + rest;
    Dispatch(rest, encode);
  }

  lemma KeywordIsNoBlank(tail: string)
    ensures !IsBlank(("valequal(" + tail)[..1]) && !IsBlank(("and(" + tail)[..1])
    ensures !IsBlank(("or(" + tail)[..1]) && !IsBlank(("not(" + tail)[..1])
  {
    assert ("valequal(" + tail)[..1][0] == 'v' && ("and(" + tail)[..1][0] == 'a';
    assert ("or(" + tail)[..1][0] == 'o' && ("not(" + tail)[..1][0] == 'n';
  }

  lemma PairText(front: string, k: string, a: string, m: string, b: string, c: string, rest: string)
    ensures (front + (k + (a + (m + ("," + (b + (c + ")"))))))) + rest
         == front + (k + (a + (m + ("," + (b + (c + (")" + rest)))))))
  {
  }

  /** However blanks are spread between the parts of a condition, it parses to the same tree and
      stops right behind it. */
  lemma {:induction false} BlanksDoNotMatter(t: Tree, g: Gaps, rest: string, encode: TargetEncoder)
    requires Encodable(t, encode) && AllPlain(t) && AllBlank(t, g)
    ensures ParseExpression(PrintWith(t, g) + rest, encode) == Parsed(Some(NodeOf(t, encode)), rest)
    decreases t, 1
  {
    hide ParseExpression, ParseLogical, ParseValEqual, Plain, Bracketed, IsBlank;
    match t {
      case Equals(a, b) =>
        var tail := g.middle + (Bracketed(a) + ("," + (g.back + (Bracketed(b) + (")" + rest)))));
        assert PrintWith(t, g) + rest == g.front + ("valequal(" + tail);
        KeywordIsNoBlank(tail);
        BlanksInFront(g.front, "valequal(" + tail, encode);
        Dispatch(tail, encode);
        EqualsWithBlanks(a, b, g.middle, g.back, rest, encode);
      case Both(l, r) => PairWithBlanks(t, And, "and(", l, r, g, rest, encode);
      case Either(l, r) => PairWithBlanks(t, Or, "or(", l, r, g, rest, encode);
      case Negation(c) =>
        var inner := PrintWith(c, Part(g, 0));
        var tail := inner + (g.middle + (")" + rest));
        assert PrintWith(t, g) + rest == g.front + ("not(" + tail);
        KeywordIsNoBlank(tail);
        BlanksInFront(g.front, "not(" + tail, encode);
        Dispatch(tail, encode);
        BlanksDoNotMatter(c, Part(g, 0), g.middle + (")" + rest), encode);
        NegationWithBlanks(NodeOf(c, encode), inner, g.middle, rest, encode);
    }
  }

  lemma {:induction false} PairWithBlanks(t: Tree, kind: Kind, k: string, l: Tree, r: Tree, g: Gaps, rest: string,
                                          encode: TargetEncoder)
    requires (t == Both(l, r) && kind == And && k == "and(") || (t == Either(l, r) && kind == Or && k == "or(")
    requires Encodable(t, encode) && AllPlain(t) && AllBlank(t, g)
    ensures Encodable(l, encode) && Encodable(r, encode)
    ensures
      var (left, right) := (PrintWith(l, Part(g, 0)), PrintWith(r, Part(g, 1)));
      ParseExpression((g.front + (k + (left + (g.middle + ("," + (right + (g.back + ")"))))))) + rest, encode) ==
      Parsed(Some(Node(kind, "", "", [], [], Some(NodeOf(l, encode)), Some(NodeOf(r, encode)))), rest)
    decreases t, 0
  {
    hide ParseExpression, ParseLogical, IsBlank, PrintWith, NodeOf;
    var (left, right) := (PrintWith(l, Part(g, 0)), PrintWith(r, Part(g, 1)));
    var tail := left + (g.middle + ("," + (right + (g.back + (")" + rest)))));
    PairText(g.front, k, left, g.middle, right, g.back, rest);
    KeywordIsNoBlank(tail);
    BlanksInFront(g.front, k + tail, encode);
    Dispatch(tail, encode);
    BlanksDoNotMatter(l, Part(g, 0), g.middle + ("," + (right + (g.back + (")" + rest)))), encode);
    BlanksDoNotMatter(r, Part(g, 1), g.back + (")" + rest), encode);
    LogicalWithBlanks(kind, NodeOf(l, encode), NodeOf(r, encode), left, right, g.middle, g.back, rest, encode);
  }
}
