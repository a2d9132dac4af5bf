/** The debugger's breakpoint conditions: parser, evaluator and their canonical text. */
module Conditions {
  import opened Bytes

  datatype Kind = ValEqual | And | Or | Not

  /** A parsed condition. Operands are kept as text and as encoded bytes; an absent argument
      is a missing node. */
  datatype Node = Node(kind: Kind, text1: string, text2: string, code1: seq<byte>, code2: seq<byte>,
                       first: Option<Node>, second: Option<Node>)

  /** The operand encoder; none when it throws. */
  type TargetEncoder = string -> Option<seq<byte>>

  /** What parsing leaves: the node found, if any, and the rest of the text; or an exception. */
  datatype Parsed = Parsed(node: Option<Node>, rest: string) | Thrown

  // ---- the grammar as functions on the text that remains ----

  predicate IsSpace(c: char) {
    c in {' ', '\t', '\n', '\r', 11 as char, 12 as char}
  }

  function SkipSpaces(s: string): (r: string)
    ensures |r| <= |s|
    ensures s != [] && !IsSpace(s[0]) ==> r == s
  {
    if s != [] && IsSpace(s[0]) then SkipSpaces(s[1..]) else s
  }

  lemma {:induction false} SkipTwice(s: string)
    ensures SkipSpaces(SkipSpaces(s)) == SkipSpaces(s)
  {
    if s != [] && IsSpace(s[0]) {
      SkipTwice(s[1..]);
    }
  }

  predicate StartsWith(s: string, keyword: string) {
    |keyword| <= |s| && s[..|keyword|] == keyword
  }

  /** The keyword a text starts with, and its length with the parenthesis. */
  function KeywordOf(t: string): (r: Option<(Kind, nat)>)
    ensures r.Some? ==> 0 < r.value.1 <= |t|
  {
    if StartsWith(t, "valequal(") then Some((ValEqual, 9))
    else if StartsWith(t, "and(") then Some((And, 4))
    else if StartsWith(t, "or(") then Some((Or, 3))
    else if StartsWith(t, "not(") then Some((Not, 4))
    else None
  }

  /** One character off the front when it is the one expected. */
  function Drop(s: string, c: char): (r: string)
    ensures |r| <= |s|
  {
    if s != [] && s[0] == c then s[1..] else s
  }

  function Depth(angle: int, c: char): int {
    if c == '<' then angle + 1 else if c == '>' then angle - 1 else angle
  }

  predicate Stops(angle: int, c: char, atComma: bool) {
    angle == 0 && (c == ')' || (atComma && c == ','))
  }

  /** The length of the operand in front: up to a closing parenthesis, or a comma where that
      ends it, outside all angle brackets. */
  function OperandLength(s: string, angle: int, atComma: bool): (n: nat)
    ensures n <= |s|
    decreases |s|
  {
    if s == [] then 0
    else
      var depth := Depth(angle, s[0]);
      if Stops(depth, s[0], atComma) then 0 else 1 + OperandLength(s[1..], depth, atComma)
  }

  lemma OperandStep(s: string, at: nat, angle: int, atComma: bool)
    requires at < |s|
    ensures var depth := Depth(angle, s[at]);
            OperandLength(s[at..], angle, atComma) ==
            if Stops(depth, s[at], atComma) then 0 else 1 + OperandLength(s[at + 1..], depth, atComma)
  {
    assert s[at..][1..] == s[at + 1..];
  }

  /** From `start`, the scan has come to `at` with this many brackets open. */
  ghost predicate Scanned(s: string, start: nat, at: nat, angle: int, atComma: bool) {
    start <= at <= |s| && at - start + OperandLength(s[at..], angle, atComma) == OperandLength(s[start..], 0, atComma)
  }

  lemma ScanStarts(s: string, start: nat, atComma: bool)
    requires start <= |s|
    ensures Scanned(s, start, start, 0, atComma)
  {
  }

  lemma ScanOn(s: string, start: nat, at: nat, angle: int, atComma: bool)
    requires Scanned(s, start, at, angle, atComma) && at < |s|
    requires !Stops(Depth(angle, s[at]), s[at], atComma)
    ensures Scanned(s, start, at + 1, Depth(angle, s[at]), atComma)
  {
    hide Stops, Depth, OperandLength;
    OperandStep(s, at, angle, atComma);
  }

  lemma ScanEnds(s: string, start: nat, at: nat, angle: int, atComma: bool)
    requires Scanned(s, start, at, angle, atComma)
    requires at < |s| ==> Stops(Depth(angle, s[at]), s[at], atComma)
    ensures at - start == OperandLength(s[start..], 0, atComma)
    ensures s[start..][..at - start] == s[start..at] && s[start..][at - start..] == s[at..]
  {
    hide Stops, Depth;
    if at < |s| {
      OperandStep(s, at, angle, atComma);
    }
  }

  lemma OneMore(s: string, start: nat, at: nat)
    requires start <= at < |s|
    ensures s[start..at + 1] == s[start..at] + [s[at]]
  {
  }

  /** Angle brackets around the whole text are taken off. */
  function ProcessOperand(text: string): string {
    var n := |text|;
    if n >= 2 && text[0] == '<' && text[n - 1] == '>' && '>' !in text[1..n - 1] then text[1..n - 1] else text
  }

  /** The operand in front, leading blanks aside, and the text behind it. */
  function OperandIn(s: string, atComma: bool): (r: (string, string))
    ensures |r.1| <= |s|
  {
    var t := SkipSpaces(s);
    var n := OperandLength(t, 0, atComma);
    (ProcessOperand(t[..n]), t[n..])
  }

  function ParseValEqual(s: string, encode: TargetEncoder): (p: Parsed)
    ensures p.Parsed? ==> |p.rest| <= |s| && p.node.Some?
  {
    var (text1, rest1) := OperandIn(s, true);
    var (text2, rest2) := OperandIn(Drop(rest1, ','), false);
    var (code1, code2) := (encode(text1), encode(text2));
    if code1.None? || code2.None? then Thrown
    else Parsed(Some(Node(ValEqual, text1, text2, code1.value, code2.value, None, None)), Drop(rest2, ')'))
  }

  function ParseLogical(kind: Kind, s: string, encode: TargetEncoder): (p: Parsed)
    ensures p.Parsed? ==> |p.rest| <= |s| && p.node.Some?
    decreases |s|, 1
  {
    var first := ParseExpression(s, encode);
    if first.Thrown? then Thrown
    else
      var second := ParseExpression(Drop(SkipSpaces(first.rest), ','), encode);
      if second.Thrown? then Thrown
      else Parsed(Some(Node(kind, "", "", [], [], first.node, second.node)), Drop(SkipSpaces(second.rest), ')'))
  }

  function ParseExpression(s: string, encode: TargetEncoder): (p: Parsed)
    ensures p.Parsed? ==> |p.rest| <= |s|
    decreases |s|, 0
  {
    var t := SkipSpaces(s);
    match KeywordOf(t)
    case None => Parsed(None, t)
    case Some((kind, n)) =>
      if kind == ValEqual then ParseValEqual(t[n..], encode) else ParseLogical(kind, t[n..], encode)
  }

  // ---- the parser object ----

  class Parser {
    const input: string
    const encode: TargetEncoder
    var pos: nat

    ghost predicate Valid()
      reads this
    {
      pos <= |input|
    }

    ghost function Rest(): string
      requires Valid()
      reads this
    {
      input[pos..]
    }

    constructor (input: string, encode: TargetEncoder)
      ensures Valid() && Rest() == input && this.input == input && this.encode == encode
    {
      this.input := input;
      this.encode := encode;
      this.pos := 0;
    }

    method SkipWhitespace()
      requires Valid()
      modifies this
      ensures Valid() && Rest() == SkipSpaces(old(Rest())) && pos >= old(pos)
    {
      while pos < |input| && IsSpace(input[pos])
        invariant old(pos) <= pos <= |input| && SkipSpaces(input[pos..]) == SkipSpaces(old(Rest()))
      {
        pos := pos + 1;
      }
    }

    method Match(keyword: string) returns (found: bool)
      requires Valid()
      modifies this
      ensures Valid() && pos >= old(pos)
      ensures var s := SkipSpaces(old(Rest()));
              && found == StartsWith(s, keyword)
              && Rest() == if found then s[|keyword|..] else s
      ensures found ==> pos >= old(pos) + |keyword|
    {
      SkipWhitespace();
      if |keyword| <= |input| - pos && input[pos..pos + |keyword|] == keyword {
        assert input[pos..][..|keyword|] == keyword;
        pos := pos + |keyword|;
        return true;
      }
      if |keyword| <= |Rest()| {
        assert input[pos..pos + |keyword|] == Rest()[..|keyword|];
      }
      return false;
    }

    method Consume(c: char)
      requires Valid()
      modifies this
      ensures Valid() && Rest() == Drop(old(Rest()), c) && pos >= old(pos)
    {
      if pos < |input| && input[pos] == c {
        pos := pos + 1;
      }
    }

    /** An operand up to a comma or parenthesis, or up to a parenthesis only. */
    method ParseUntil(atComma: bool) returns (text: string)
      requires Valid()
      modifies this
      ensures Valid() && pos >= old(pos)
      ensures (text, Rest()) == OperandIn(old(Rest()), atComma)
    {
      hide ProcessOperand, SkipSpaces, IsSpace, OperandLength, Stops, Scanned;
      SkipWhitespace();
      ghost var start := pos;
      var result: string := [];
      var angleCount := 0;
      ScanStarts(input, start, atComma);
      while pos < |input|
        invariant start <= pos <= |input| && result == input[start..pos]
        invariant Scanned(input, start, pos, angleCount, atComma)
      {
        ghost var angle := angleCount;
        var c := input[pos];
        if c == '<' {
          angleCount := angleCount + 1;
        } else if c == '>' {
          angleCount := angleCount - 1;
        }
        if Stops(angleCount, c, atComma) {
          ScanEnds(input, start, pos, angle, atComma);
          return ProcessOperand(result);
        }
        ScanOn(input, start, pos, angle, atComma);
        OneMore(input, start, pos);
        result := result + [c];
        pos := pos + 1;
      }
      ScanEnds(input, start, pos, angleCount, atComma);
      text := ProcessOperand(result);
    }

    method ParseValEqualNode() returns (r: Option<Node>)
      requires Valid()
      modifies this
      ensures Valid() && pos >= old(pos)
      ensures var spec := ParseValEqual(old(Rest()), encode);
              && (r.None? <==> spec.Thrown?)
              && (r.Some? ==> spec == Parsed(r, Rest()))
    {
      hide OperandIn, Drop;
      var text1 := ParseUntil(true);
      Consume(',');
      var text2 := ParseUntil(false);
      Consume(')');
      var code1 := encode(text1);
      if code1.None? {
        return None;
      }
      var code2 := encode(text2);
      if code2.None? {
        return None;
      }
      return Some(Node(ValEqual, text1, text2, code1.value, code2.value, None, None));
    }

    method ParseLogicalNode(kind: Kind) returns (r: Option<Node>)
      requires Valid()
      modifies this
      ensures Valid() && pos >= old(pos)
      ensures var spec := ParseLogical(kind, old(Rest()), encode);
              && (r.None? <==> spec.Thrown?)
              && (r.Some? ==> spec == Parsed(r, Rest()))
      decreases |input| - pos, 1
    {
      hide SkipSpaces, ParseExpression;
      var first, thrown := Parse();
      if thrown {
        return None;
      }
      SkipWhitespace();
      Consume(',');
      var second;
      second, thrown := Parse();
      if thrown {
        return None;
      }
      SkipWhitespace();
      Consume(')');
      return Some(Node(kind, "", "", [], [], first, second));
    }

    /** Tries the keywords in turn. */
    method MatchKeyword() returns (kind: Option<Kind>)
      requires Valid()
      modifies this
      ensures Valid() && pos >= old(pos)
      ensures var s := SkipSpaces(old(Rest()));
              match KeywordOf(s)
              case None => kind == None && Rest() == s
              case Some((k, n)) => kind == Some(k) && Rest() == s[n..]
    {
      hide SkipSpaces, StartsWith;
      ghost var s := SkipSpaces(Rest());
      SkipTwice(Rest());
      var found := Match("valequal(");
      if found {
        return Some(ValEqual);
      }
      assert Rest() == s;
      found := Match("and(");
      if found {
        return Some(And);
      }
      assert Rest() == s;
      found := Match("or(");
      if found {
        return Some(Or);
      }
      assert Rest() == s;
      found := Match("not(");
      return if found then Some(Not) else None;
    }

    method Parse() returns (r: Option<Node>, thrown: bool)
      requires Valid()
      modifies this
      ensures Valid() && pos >= old(pos)
      ensures var spec := ParseExpression(old(Rest()), encode);
              if thrown then spec == Thrown else spec == Parsed(r, Rest())
      decreases |input| - pos, 0
    {
      hide SkipSpaces, KeywordOf, ParseValEqual, ParseLogical;
      SkipTwice(Rest());
      SkipWhitespace();
      var kind := MatchKeyword();
      match kind {
        case None =>
          return None, false;
        case Some(ValEqual) =>
          r := ParseValEqualNode();
        case Some(k) =>
          r := ParseLogicalNode(k);
      }
      thrown := r.None?;
    }
  }
}
