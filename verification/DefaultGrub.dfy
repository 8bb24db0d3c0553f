// Lines of a grub file (toolkit/tools/internal/grub/commands.go) and the
// variable assignments of /etc/default/grub
// (toolkit/tools/pkg/imagecustomizerlib/defaultgrubutils.go).
module DefaultGrub {
  import opened FileScanning
  import opened GrubTokens
  import opened Wrappers
  import opened GrubTokenizing
  import opened GrubQuoting

  // ------------------------------------------------------------------ lines

  datatype Line = Line(tokens: seq<Token>, endToken: Option<Token>)

  predicate EndsLine(kind: TokenType) {
    kind == NEWLINE || kind == SEMICOLON
  }

  function NewLine(tokens: seq<Token>, endToken: Option<Token>): seq<Line> {
    if tokens == [] then [] else [Line(tokens, endToken)]
  }

  // The lines of tokens, of which the first one begins with the tokens cur.
  function LinesOf(tokens: seq<Token>, cur: seq<Token>): seq<Line>
    decreases |tokens|
  {
    if tokens == [] then NewLine(cur, None)
    else if EndsLine(tokens[0].kind) then NewLine(cur, Some(tokens[0])) + LinesOf(tokens[1..], [])
    else LinesOf(tokens[1..], cur + [tokens[0]])
  }

  method SplitTokensIntoLines(tokens: seq<Token>) returns (lines: seq<Line>)
    ensures lines == LinesOf(tokens, [])
  {
    lines := [];
    var lineTokens: seq<Token> := [];
    assert tokens[0..] == tokens;
    for i := 0 to |tokens|
      invariant lines + LinesOf(tokens[i..], lineTokens) == LinesOf(tokens, [])
    {
      var token := tokens[i];
      assert tokens[i..][1..] == tokens[i + 1..];
      if EndsLine(token.kind) {
        ghost var rest := LinesOf(tokens[i + 1..], []);
        assert lines + (NewLine(lineTokens, Some(token)) + rest) == lines + NewLine(lineTokens, Some(token)) + rest;
        lines := AppendNewLine(lines, lineTokens, Some(token));
        lineTokens := [];
      } else {
        lineTokens := lineTokens + [token];
      }
    }
    lines := AppendNewLine(lines, lineTokens, None);
  }

  function AppendNewLine(lines: seq<Line>, tokens: seq<Token>, endToken: Option<Token>): (r: seq<Line>)
    ensures r == lines + NewLine(tokens, endToken)
  {
    if |tokens| <= 0 then lines else lines + [Line(tokens, endToken)]
  }

  // ---------------------------------------------------------- what lines say

  // A token and its sub-words without their locations.
  datatype Glyph = Glyph(kind: SubWordType, value: string)
  datatype Bare = Bare(kind: TokenType, glyphs: seq<Glyph>)

  function BareSubWords(subWords: seq<SubWord>): (r: seq<Glyph>)
    ensures |r| == |subWords|
  {
    if subWords == [] then []
    else [Glyph(subWords[0].kind, subWords[0].value)] + BareSubWords(subWords[1..])
  }

  function BareToken(token: Token): Bare {
    Bare(token.kind, BareSubWords(token.subWords))
  }

  function BareTokens(tokens: seq<Token>): (r: seq<Bare>)
    ensures |r| == |tokens|
    ensures forall k :: 0 <= k < |r| ==> r[k] == BareToken(tokens[k])
  {
    seq(|tokens|, k requires 0 <= k < |tokens| => BareToken(tokens[k]))
  }

  datatype AssignError =
    | TokenizeFailed(cause: TokenizeError)
    | UnexpectedQuotedExpansion(name: string)
    | UnexpectedExpansion(name: string)

  type Parsed<+T> = Result<T, AssignError>

  const KERNEL_OPTS := "kernelopts"

  // The string a word denotes.  Only "$kernelopts" may be expanded, and it
  // stands for itself.
  function Spell(glyphs: seq<Glyph>): Parsed<string> {
    if glyphs == [] then Ok("")
    else
      var g := glyphs[0];
      match g.kind
      case QUOTED_VAR_EXPANSION =>
        if g.value != KERNEL_OPTS then Err(UnexpectedQuotedExpansion(g.value))
        else OnFront("$" + KERNEL_OPTS, Spell(glyphs[1..]))
      case VAR_EXPANSION => Err(UnexpectedExpansion(g.value))
      case _ => OnFront(g.value, Spell(glyphs[1..]))
  }

  function OnFront(s: string, r: Parsed<string>): Parsed<string> {
    match r
    case Ok(rest) => Ok(s + rest)
    case Err(_) => r
  }

  // The index of the first c in s, or the length of s.
  function IndexOf(s: string, c: char): (n: nat)
    ensures n <= |s| && (forall k :: 0 <= k < n ==> s[k] != c) && (n < |s| ==> s[n] == c)
  {
    if s == "" || s[0] == c then 0 else 1 + IndexOf(s[1..], c)
  }

  lemma {:induction false} IndexOfIs(s: string, c: char, n: nat)
    requires n <= |s| && (n < |s| ==> s[n] == c) && forall k :: 0 <= k < n ==> s[k] != c
    ensures IndexOf(s, c) == n
  {
    if n == 0 {
    } else {
      IndexOfIs(s[1..], c, n - 1);
    }
  }

  predicate IsVarAssign(line: seq<Bare>) {
    && |line| == 1
    && |line[0].glyphs| >= 1
    && line[0].glyphs[0].kind == KEYWORD_STRING
    && '=' in line[0].glyphs[0].value
  }

  // The name and value a line assigns, if it is an assignment.
  function ReadLine(line: seq<Bare>): Parsed<Option<(string, string)>> {
    if !IsVarAssign(line) then Ok(None)
    else
      match Spell(line[0].glyphs)
      case Err(e) => Err(e)
      case Ok(text) =>
        var n := IndexOf(text, '=');
        if n == |text| then Ok(None) else Ok(Some((text[..n], text[n + 1..])))
  }

  // ------------------------------------------------------------ assignments

  datatype VarAssign = VarAssign(token: Token, line: Line, name: string, value: string)

  function AssignsOf(lines: seq<Line>): Parsed<seq<VarAssign>> {
    if lines == [] then Ok([])
    else
      match ReadLine(BareTokens(lines[0].tokens))
      case Err(e) => Err(e)
      case Ok(None) => AssignsOf(lines[1..])
      case Ok(Some(pair)) =>
        assert |lines[0].tokens| == 1;
        match AssignsOf(lines[1..])
        case Err(e) => Err(e)
        case Ok(rest) => Ok([VarAssign(lines[0].tokens[0], lines[0], pair.0, pair.1)] + rest)
  }

  // All assignments of a file, in order.
  function FindAssigns(content: string): Parsed<seq<VarAssign>> {
    match ErrorAt(content, 0, Lex(content).fault)
    case Some(e) => Err(TokenizeFailed(e))
    case None => AssignsOf(LinesOf(Tokens(content), []))
  }

  method FindDefaultGrubFileVarAssigns(content: string) returns (r: Parsed<seq<VarAssign>>)
    ensures r == FindAssigns(content)
  {
    var grubTokens, err := TokenizeConfig(content);
    if err.Some? {
      return Err(TokenizeFailed(err.value));
    }
    var lines := SplitTokensIntoLines(grubTokens);
    r := ReadLines(lines);
  }

  method ReadLines(lines: seq<Line>) returns (r: Parsed<seq<VarAssign>>)
    ensures r == AssignsOf(lines)
  {
    hide AssignsOf, ReadLine, Before, Spell, BareSubWords, BareTokens, IndexOf;
    var varAssigns: seq<VarAssign> := [];
    ghost var goal := AssignsOf(lines);
    assert lines[0..] == lines;
    NothingBefore(goal);
    for i := 0 to |lines|
      invariant Before(varAssigns, AssignsOf(lines[i..])) == goal
    {
      var line := lines[i];
      ghost var rest := AssignsOf(lines[i + 1..]);
      AssignsStep(lines, i);
      BeforeError(varAssigns, AssignsOf(lines[i..]));
      if |line.tokens| != 1 {
        continue;
      }
      var argToken := line.tokens[0];
      var isVarAssign := |argToken.subWords| >= 1 && argToken.subWords[0].kind == KEYWORD_STRING
        && '=' in argToken.subWords[0].value;
      if !isVarAssign {
        continue;
      }
      var text := SpellWord(argToken);
      if text.Err? {
        return Err(text.error);
      }
      var n := IndexOf(text.value, '=');
      if n < |text.value| {
        var varAssign := VarAssign(argToken, line, text.value[..n], text.value[n + 1..]);
        BeforeBefore(varAssigns, [varAssign], rest);
        varAssigns := varAssigns + [varAssign];
      }
    }
    NoneLeft(lines[|lines|..], varAssigns);
    r := Ok(varAssigns);
  }

  // The text of an assignment, built from its sub-words.
  method SpellWord(argToken: Token) returns (r: Parsed<string>)
    ensures r == Spell(BareSubWords(argToken.subWords))
  {
    var subWords := argToken.subWords;
    var builder := "";
    ghost var goal := Spell(BareSubWords(subWords));
    assert subWords[0..] == subWords;
    assert goal.Ok? ==> "" + goal.value == goal.value;
    for i := 0 to |subWords|
      invariant OnFront(builder, Spell(BareSubWords(subWords[i..]))) == goal
    {
      var subword := subWords[i];
      ghost var before := builder;
      ghost var rest := Spell(BareSubWords(subWords[i + 1..]));
      SpellStep(subWords, i);
      match subword.kind {
        case KEYWORD_STRING =>
          builder := builder + subword.value;
        case STRING =>
          builder := builder + subword.value;
        case QUOTED_VAR_EXPANSION =>
          if subword.value != KERNEL_OPTS {
            return Err(UnexpectedQuotedExpansion(subword.value));
          }
          builder := builder + "$";
          builder := builder + KERNEL_OPTS;
          assert builder == before + ("$" + KERNEL_OPTS);
        case VAR_EXPANSION =>
          return Err(UnexpectedExpansion(subword.value));
      }
      OnFrontTwice(before, if subword.kind == QUOTED_VAR_EXPANSION then "$" + KERNEL_OPTS else subword.value, rest);
    }
    assert builder + "" == builder;
    r := Ok(builder);
  }

  lemma SpellStep(subWords: seq<SubWord>, i: nat)
    requires i < |subWords|
    ensures var g := Glyph(subWords[i].kind, subWords[i].value);
      var rest := Spell(BareSubWords(subWords[i + 1..]));
      Spell(BareSubWords(subWords[i..])) ==
        match g.kind
        case QUOTED_VAR_EXPANSION =>
          if g.value != KERNEL_OPTS then Err(UnexpectedQuotedExpansion(g.value)) else OnFront("$" + KERNEL_OPTS, rest)
        case VAR_EXPANSION => Err(UnexpectedExpansion(g.value))
        case _ => OnFront(g.value, rest)
  {
    hide OnFront;
    var g := Glyph(subWords[i].kind, subWords[i].value);
    assert subWords[i..][1..] == subWords[i + 1..];
    var rest := BareSubWords(subWords[i + 1..]);
    assert BareSubWords(subWords[i..]) == [g] + rest;
    assert ([g] + rest)[1..] == rest;
  }

  lemma OnFrontTwice(a: string, b: string, r: Parsed<string>)
    ensures OnFront(a, OnFront(b, r)) == OnFront(a + b, r)
  {
    if r.Ok? {
      Assoc(a, b, r.value);
    }
  }

  function Before(a: seq<VarAssign>, r: Parsed<seq<VarAssign>>): Parsed<seq<VarAssign>> {
    match r
    case Ok(rest) => Ok(a + rest)
    case Err(_) => r
  }

  lemma NothingBefore(r: Parsed<seq<VarAssign>>)
    ensures Before([], r) == r
  {
    assert r.Ok? ==> [] + r.value == r.value;
  }

  lemma BeforeBefore(a: seq<VarAssign>, b: seq<VarAssign>, r: Parsed<seq<VarAssign>>)
    ensures Before(a, Before(b, r)) == Before(a + b, r)
  {
    assert r.Ok? ==> a + (b + r.value) == a + b + r.value;
  }

  lemma BeforeError(a: seq<VarAssign>, r: Parsed<seq<VarAssign>>)
    ensures r.Err? ==> Before(a, r) == r
  {
  }

  lemma NoneLeft(lines: seq<Line>, a: seq<VarAssign>)
    requires lines == []
    ensures Before(a, AssignsOf(lines)) == Ok(a)
  {
    assert a + [] == a;
  }

  // One round of ReadLines.
  lemma AssignsStep(lines: seq<Line>, i: nat)
    requires i < |lines|
    ensures var rest := AssignsOf(lines[i + 1..]);
      AssignsOf(lines[i..]) ==
      if |lines[i].tokens| != 1 then rest
      else
        var token := lines[i].tokens[0];
        var w := token.subWords;
        if |w| == 0 || w[0].kind != KEYWORD_STRING || '=' !in w[0].value then rest
        else
          match Spell(BareSubWords(w))
          case Err(e) => Err(e)
          case Ok(text) =>
            var n := IndexOf(text, '=');
            if n == |text| then rest else Before([VarAssign(token, lines[i], text[..n], text[n + 1..])], rest)
  {
    hide Spell, IndexOf;
    assert lines[i..][1..] == lines[i + 1..];
  }

  // ---------------------------------------------------------------- editing

  // The text that assigns value to the variable name.
  function AssignText(name: string, value: string): string {
    name + "=" + Quoted(value)
  }

  // The index of the first assignment to name, or the number of assignments.
  function FirstNamed(assigns: seq<VarAssign>, name: string): (k: nat)
    ensures k <= |assigns|
    ensures forall j :: 0 <= j < k ==> assigns[j].name != name
    ensures k < |assigns| ==> assigns[k].name == name
  {
    if assigns == [] || assigns[0].name == name then 0 else 1 + FirstNamed(assigns[1..], name)
  }

  // Where a new assignment goes, given the line it goes after.
  function InsertAt(after: Option<Line>): nat
    requires after.Some? ==> |after.value.tokens| > 0
  {
    match after
    case None => 0
    case Some(line) =>
      if line.endToken.Some? then line.endToken.value.loc.end.index
      else line.tokens[|line.tokens| - 1].loc.end.index
  }

  // Whether the line it goes after must be ended first.
  predicate NewlineBefore(after: Option<Line>) {
    after.Some? && (after.value.endToken.None? || after.value.endToken.value.kind == SEMICOLON)
  }

  function Inserted(content: string, after: Option<Line>, name: string, value: string): string
    requires after.Some? ==> |after.value.tokens| > 0
    requires InsertAt(after) <= |content|
  {
    content[..InsertAt(after)] + (if NewlineBefore(after) then "\n" else "")
    + AssignText(name, value) + "\n" + content[InsertAt(after)..]
  }

  function Replaced(content: string, varAssign: VarAssign, value: string): string
    requires varAssign.token.loc.start.index <= varAssign.token.loc.end.index <= |content|
  {
    content[..varAssign.token.loc.start.index] + AssignText(varAssign.name, value)
    + content[varAssign.token.loc.end.index..]
  }

  method ReplaceDefaultGrubFileVarAssign(content: string, varAssign: VarAssign, newValue: string) returns (r: string)
    requires varAssign.token.loc.start.index <= varAssign.token.loc.end.index <= |content|
    ensures r == Replaced(content, varAssign, newValue)
  {
    var quoted := ForceQuoteString(newValue);
    var cmdLineString := varAssign.name + "=" + quoted;
    var start := varAssign.token.loc.start.index;
    var end := varAssign.token.loc.end.index;
    r := content[..start] + cmdLineString + content[end..];
  }

  method InsertDefaultGrubFileVarAssign(content: string, insertAfterLine: Option<Line>, varName: string, newValue: string)
    returns (r: string)
    requires insertAfterLine.Some? ==> |insertAfterLine.value.tokens| > 0
    requires InsertAt(insertAfterLine) <= |content|
    ensures r == Inserted(content, insertAfterLine, varName, newValue)
  {
    var insertAt := 0;
    var newlineBefore := false;
    if insertAfterLine.Some? {
      var line := insertAfterLine.value;
      if line.endToken.Some? {
        insertAt := line.endToken.value.loc.end.index;
        newlineBefore := line.endToken.value.kind == SEMICOLON;
      } else {
        insertAt := line.tokens[|line.tokens| - 1].loc.end.index;
        newlineBefore := true;
      }
    }
    var quoted := ForceQuoteString(newValue);
    var lineString := varName + "=" + quoted;
    var builder := content[..insertAt];
    assert builder + "" == builder;
    if newlineBefore {
      builder := builder + "\n";
    }
    builder := builder + lineString;
    builder := builder + "\n";
    builder := builder + content[insertAt..];
    r := builder;
  }
}
