// The rune iterator the grub tokenizer reads from
// (toolkit/tools/internal/filescanner/filescanner.go).
module FileScanning {

  // A position in a file: 1-based column and line, 0-based index.
  datatype SourceLoc = SourceLoc(col: nat, line: nat, index: nat)

  // What reading one rune does to a location.
  function Advance(loc: SourceLoc, c: char): (next: SourceLoc)
    ensures next.index == loc.index + 1
  {
    if c == '\n' then SourceLoc(1, loc.line + 1, loc.index + 1)
    else SourceLoc(loc.col + 1, loc.line, loc.index + 1)
  }

  // The location reached by reading the first i runes of s.
  function LocAt(s: string, i: nat): (loc: SourceLoc)
    requires i <= |s|
    ensures loc.index == i
  {
    if i == 0 then SourceLoc(1, 1, 0) else Advance(LocAt(s, i - 1), s[i - 1])
  }

  // The number of line breaks before index i.
  function LineBreaks(s: string, i: nat): nat
    requires i <= |s|
  {
    multiset(s[..i])['\n']
  }

  // b is where the line holding index i begins.
  predicate StartsLineOf(s: string, b: nat, i: nat)
    requires i <= |s|
  {
    b <= i && (b == 0 || s[b - 1] == '\n') && '\n' !in s[b..i]
  }

  // A location is determined by the newlines before its index: the line is
  // one more than their number, the column counts from the last of them.
  lemma {:induction false} LocMeaning(s: string, i: nat) returns (b: nat)
    requires i <= |s|
    ensures StartsLineOf(s, b, i)
    ensures LocAt(s, i) == SourceLoc(i - b + 1, LineBreaks(s, i) + 1, i)
  {
    if i == 0 {
      b := 0;
    } else {
      b := LocMeaning(s, i - 1);
      assert s[..i] == s[..i - 1] + [s[i - 1]];
      if s[i - 1] == '\n' {
        b := i;
      } else {
        assert s[b..i] == s[b..i - 1] + [s[i - 1]];
      }
    }
  }

  // The value a failed decode yields (at the end of the content).
  const RUNE_ERROR: char := '\U{FFFD}'

  function RuneAt(s: string, i: nat): char {
    if i < |s| then s[i] else RUNE_ERROR
  }

  class FileScanner {
    const content: string
    var col: nat
    var line: nat
    var index: nat
    var runeValue: char
    var runeWidth: nat

    // The cached rune is the one at the index.
    ghost predicate Valid()
      reads this
    {
      && index <= |content|
      && runeValue == RuneAt(content, index)
      && runeWidth == (if index < |content| then 1 else 0)
    }

    // Line and column are those of the index.  Holds as long as Next is not
    // called at the end of the content.
    ghost predicate Located()
      reads this
    {
      index <= |content| && Loc() == LocAt(content, index)
    }

    constructor (content: string)
      ensures Valid() && Located()
      ensures this.content == content && index == 0
    {
      this.content := content;
      col, line, index := 1, 1, 0;
      new;
      UpdateRune();
    }

    function Loc(): SourceLoc
      reads this
    {
      SourceLoc(col, line, index)
    }

    predicate Eof()
      reads this
    {
      index >= |content|
    }

    function Peek(): (char, bool)
      reads this
    {
      (runeValue, Eof())
    }

    // Moves past one rune.  At the end of the content the index stays put and
    // only the column drifts, since a failed decode has width zero.
    method Next() returns (eof: bool)
      requires Valid()
      modifies this
      ensures Valid()
      ensures eof == Eof()
      ensures old(index) < |content| ==> Loc() == Advance(old(Loc()), content[old(index)])
      ensures old(index) < |content| && old(Located()) ==> Located()
      ensures old(index) == |content| ==> Loc() == old(Loc()).(col := old(col) + 1)
    {
      if runeValue == '\n' {
        line := line + 1;
        col := 1;
      } else {
        col := col + 1;
      }
      index := index + runeWidth;
      UpdateRune();
      eof := Eof();
    }

    method UpdateRune()
      requires index <= |content|
      modifies this`runeValue, this`runeWidth
      ensures Valid()
    {
      if index < |content| {
        runeValue, runeWidth := content[index], 1;
      } else {
        runeValue, runeWidth := RUNE_ERROR, 0;
      }
    }
  }
}
