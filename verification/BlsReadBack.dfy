// What a list of arguments that was written to an options line is read back as.
//
// The content of a line is stripped when it is parsed, and carriage returns count
// as whitespace at its end, so that those at the end of an unquoted last argument
// are lost.
module BlsReadBack {
  import opened GrubTokens
  import opened GrubQuoting
  import opened BlsLines
  import opened BlsArgs
  import opened BlsUpdate

  function TrimReturns(a: string): (r: string)
    ensures |r| <= |a| && r == a[..|r|]
    ensures r != "" ==> r[|r| - 1] != '\r'
    ensures forall k :: |r| <= k < |a| ==> a[k] == '\r'
  {
    if a != "" && a[|a| - 1] == '\r' then TrimReturns(a[..|a| - 1]) else a
  }

  // The last argument, as far as it survives.
  function CleanedLast(a: string): string {
    if RequiresQuotes(a) then a else TrimReturns(a)
  }

  // The arguments that survive at the end of a line.
  function Cleaned(args: seq<string>): seq<string> {
    if args == [] then []
    else
      var front, last := args[..|args| - 1], CleanedLast(args[|args| - 1]);
      if last == "" then Cleaned(front) else front + [last]
  }

  // ------------------------------------------------------ the stripped text

  lemma {:induction false} PrintSnoc(front: seq<string>, a: string)
    ensures Print(front + [a]) == if front == [] then QuoteIfNeeded(a) else Print(front) + (" " + QuoteIfNeeded(a))
  {
    hide QuoteIfNeeded;
    var args := front + [a];
    if front == [] {
      assert args == [a];
    } else {
      PrintSnoc(front[1..], a);
      assert args[0] == front[0] && args[1..] == front[1..] + [a];
      Assoc(QuoteIfNeeded(front[0]), " " + Print(front[1..]), " " + QuoteIfNeeded(a));
      Assoc(" ", Print(front[1..]), " " + QuoteIfNeeded(a));
    }
  }

  lemma OptionsSnoc(front: seq<string>, a: string)
    ensures OptionsText(front + [a]) == OptionsText(front) + (" " + QuoteIfNeeded(a))
  {
    hide Print, QuoteIfNeeded;
    PrintSnoc(front, a);
    if front != [] {
      Assoc(OPTIONS, " " + Print(front), " " + QuoteIfNeeded(a));
      Assoc(" ", Print(front), " " + QuoteIfNeeded(a));
    }
  }

  lemma StripTrailing(y: string, trail: string)
    requires forall k :: 0 <= k < |trail| ==> IsTrailing(trail[k])
    ensures Stripped(y + trail) == Stripped(y)
  {
    hide TrimEnd, IsTrailing;
    TrimTrailing(y, trail);
    assert (y + trail)[..TrimEnd(y)] == y[..TrimEnd(y)];
  }

  lemma StripNothing(x: string)
    requires x != "" && !IsTrailing(x[|x| - 1])
    ensures Stripped(x) == x
  {
    hide IsTrailing;
    TrimEndIs(x, |x|);
  }

  // A last argument that survives ends the content.
  lemma LastEnds(a: string) returns (trail: string)
    requires CleanedLast(a) != ""
    ensures var q := QuoteIfNeeded(CleanedLast(a)); q != "" && !IsTrailing(q[|q| - 1])
    ensures QuoteIfNeeded(a) == QuoteIfNeeded(CleanedLast(a)) + trail
    ensures forall k :: 0 <= k < |trail| ==> IsTrailing(trail[k])
  {
    var c := CleanedLast(a);
    if RequiresQuotes(a) {
      trail := "";
      var q := Quoted(a);
      assert q[|q| - 1] == '"';
      assert q == q + "";
    } else {
      UnquotedFront(a, |c|);
      trail := a[|c|..];
      assert a == c + trail;
      assert !IsStop(c[|c| - 1]);
    }
  }

  lemma UnquotedFront(a: string, n: nat)
    requires !RequiresQuotes(a) && n <= |a|
    ensures !RequiresQuotes(a[..n])
    ensures forall k :: 0 <= k < n ==> !IsStop(a[..n][k])
  {
    hide IsStop;
    assert forall k :: 0 <= k < n ==> a[..n][k] == a[k];
  }

  // One that does not survive leaves only what is stripped.
  lemma LastVanishes(a: string)
    requires CleanedLast(a) == ""
    ensures forall k :: 0 <= k < |" " + QuoteIfNeeded(a)| ==> IsTrailing((" " + QuoteIfNeeded(a))[k])
  {
  }

  // The content of the line is that of the arguments that survive.
  lemma {:induction false} StrippedOptions(args: seq<string>)
    ensures Stripped(OptionsText(args)) == OptionsText(Cleaned(args))
  {
    hide *;
    CleanedIs(args);
    if args == [] {
      NoArguments();
    } else {
      var front, a := args[..|args| - 1], args[|args| - 1];
      assert args == front + [a];
      OptionsSnoc(front, a);
      var c := CleanedLast(a);
      if c == "" {
        LastVanishes(a);
        StripTrailing(OptionsText(front), " " + QuoteIfNeeded(a));
        StrippedOptions(front);
      } else {
        var trail := LastEnds(a);
        var q := QuoteIfNeeded(c);
        OptionsSnoc(front, c);
        var x := OptionsText(front) + (" " + q);
        assert OptionsText(front) + (" " + (q + trail)) == x + trail;
        assert x[|x| - 1] == q[|q| - 1];
        StripTrailing(x, trail);
        StripNothing(x);
      }
    }
  }

  lemma CleanedIs(args: seq<string>)
    ensures args == [] ==> Cleaned(args) == []
    ensures args != [] ==>
      var front, last := args[..|args| - 1], CleanedLast(args[|args| - 1]);
      Cleaned(args) == if last == "" then Cleaned(front) else front + [last]
  {
    hide CleanedLast;
  }

  lemma NoArguments()
    ensures Stripped(OptionsText([])) == OptionsText([])
  {
    assert OPTIONS[6] == 's';
    StripNothing(OPTIONS);
  }

  // -------------------------------------------------------------- the value

  lemma {:induction false} SplitLead(v: string)
    ensures OptionTokens(v[LeadLen(v)..]) == OptionTokens(v)
  {
    if v != "" && IsBlank(v[0]) {
      SplitLead(v[1..]);
      assert v[1..][LeadLen(v[1..])..] == v[LeadLen(v)..];
      assert [] + Split(v[1..], "", false) == Split(v[1..], "", false);
    } else {
      assert v[0..] == v;
    }
  }

  lemma OptionsValue(args: seq<string>)
    ensures OptionTokens(ValueOf(OptionsText(args))) == OptionTokens(Print(args))
  {
    hide Print, OptionTokens, LeadLen, WordLen;
    var x := OptionsText(args);
    assert forall k :: 0 <= k < 7 ==> x[k] == OPTIONS[k] && !IsBlank(OPTIONS[k]);
    WordLenIs(x, 7);
    if args == [] {
      NothingPrinted();
      SplitLead("");
      assert x[7..] == "" && ValueOf(x) == ""[LeadLen("")..];
    } else {
      assert x[7..] == " " + Print(args);
      SplitBlank(Print(args));
      SplitLead(x[7..]);
    }
  }

  lemma NothingPrinted()
    ensures Print([]) == ""
  {
  }

  lemma SplitBlank(v: string)
    ensures OptionTokens(" " + v) == OptionTokens(v)
  {
    assert (" " + v)[1..] == v;
    assert [] + Split(v, "", false) == Split(v, "", false);
  }

  // For all arguments: an options line with them is read back as the printed form
  // of those that survive.
  lemma ArgsReadBack(args: seq<string>)
    ensures OptionTokens(ValueOf(Stripped(OptionsText(args)))) == OptionTokens(Print(Cleaned(args)))
  {
    hide *;
    StrippedOptions(args);
    OptionsValue(Cleaned(args));
  }

  // ------------------------------------------- kept arguments, then added ones

  lemma {:induction false} SplitTogether(kept: seq<string>, added: seq<string>)
    requires AllQuoteFree(kept)
    ensures OptionTokens(Print(kept + added)) == Mangled(kept) + OptionTokens(Print(added))
  {
    hide QuoteIfNeeded, Mangle, QuoteFree, Split, Print;
    if kept == [] {
      assert [] + added == added && Mangled([]) == [];
      assert [] + OptionTokens(Print(added)) == OptionTokens(Print(added));
    } else {
      var rest := kept[1..];
      assert kept + added == [kept[0]] + (rest + added) && kept == [kept[0]] + rest;
      SplitTogether(rest, added);
      PrintTogether(kept[0], rest + added);
      assert [Mangle(kept[0])] + (Mangled(rest) + OptionTokens(Print(added))) == Mangled(kept) + OptionTokens(Print(added));
    }
  }

  lemma PrintTogether(a: string, rest: seq<string>)
    requires QuoteFree(a)
    ensures OptionTokens(Print([a] + rest)) == [Mangle(a)] + OptionTokens(Print(rest))
  {
    hide QuoteIfNeeded, Mangle, QuoteFree;
    var args := [a] + rest;
    assert args[1..] == rest;
    if rest == [] {
      assert QuoteIfNeeded(a) + "" == QuoteIfNeeded(a);
      SplitOne(a, "");
      assert [Mangle(a)] + [] == [Mangle(a)];
    } else {
      var v := " " + Print(rest);
      SplitOne(a, v);
      assert v[1..] == Print(rest);
    }
  }

  lemma {:induction false} CleanedTogether(kept: seq<string>, added: seq<string>)
    ensures Cleaned(kept + added) == if Cleaned(added) == [] then Cleaned(kept) else kept + Cleaned(added)
    decreases |added|
  {
    hide CleanedLast, Cleaned;
    CleanedIs(added);
    CleanedIs(kept + added);
    if added == [] {
      assert kept + added == kept;
    } else {
      var front := added[..|added| - 1];
      assert (kept + added)[..|kept + added| - 1] == kept + front;
      CleanedTogether(kept, front);
      var last := CleanedLast(added[|added| - 1]);
      assert kept + front + [last] == kept + (front + [last]);
    }
  }

  lemma {:induction false} CleanedQuoteFree(args: seq<string>)
    requires AllQuoteFree(args)
    ensures AllQuoteFree(Cleaned(args))
    ensures |Cleaned(args)| <= |args|
  {
    if args == [] {
    } else {
      var a := args[|args| - 1];
      assert QuoteFree(a);
      CleanedQuoteFree(args[..|args| - 1]);
      assert '"' !in CleanedLast(a);
    }
  }

  // Of the arguments that were kept, those that come back: all of them if one that
  // was added stands behind them.
  function Surviving(kept: seq<string>, added: seq<string>): seq<string> {
    if Cleaned(added) == [] then Cleaned(kept) else kept
  }

  // What a rewritten options line reads back as: the kept arguments, with the
  // backslashes that quoting added, and then whatever the added ones print as.
  function ReadBack(kept: seq<string>, added: seq<string>): seq<string> {
    Mangled(Surviving(kept, added)) + OptionTokens(Print(Cleaned(added)))
  }

  lemma LineReadsBack(kept: seq<string>, added: seq<string>)
    requires AllQuoteFree(kept)
    ensures OptionTokens(ValueOf(Stripped(OptionsText(kept + added)))) == ReadBack(kept, added)
  {
    hide *;
    ArgsReadBack(kept + added);
    CleanedTogether(kept, added);
    ReadBackIs(kept, added);
    if Cleaned(added) == [] {
      CleanedQuoteFree(kept);
      SplitTogether(Cleaned(kept), []);
      assert Cleaned(kept) + [] == Cleaned(kept);
    } else {
      SplitTogether(kept, Cleaned(added));
    }
  }

  lemma ReadBackIs(kept: seq<string>, added: seq<string>)
    ensures ReadBack(kept, added) ==
      Mangled(if Cleaned(added) == [] then Cleaned(kept) else kept) + OptionTokens(Print(Cleaned(added)))
  {
    hide Cleaned, Mangled, OptionTokens, Print;
  }

  // ---------------------------------------------- when the arguments come back

  // The last argument keeps its end.
  predicate LastIsClean(args: seq<string>) {
    args == [] || (args[|args| - 1] != "" && CleanedLast(args[|args| - 1]) == args[|args| - 1])
  }

  lemma {:induction false} MangledLen(args: seq<string>)
    ensures |Mangled(args)| == |args|
    ensures forall k :: 0 <= k < |args| ==> Mangled(args)[k] == Mangle(args[k])
  {
    hide Mangle;
    if args == [] {
    } else {
      MangledLen(args[1..]);
    }
  }

  lemma {:induction false} CleanedLen(args: seq<string>)
    ensures |Cleaned(args)| <= |args|
    ensures |Cleaned(args)| == |args| && args != [] ==>
      Cleaned(args)[|args| - 1] == CleanedLast(args[|args| - 1]) != ""
    ensures LastIsClean(args) ==> Cleaned(args) == args
  {
    hide CleanedLast;
    if args == [] {
    } else {
      CleanedLen(args[..|args| - 1]);
    }
  }

  // Arguments without double quotes come back one for one if and only if the last
  // one is quoted or does not end in a carriage return.
  lemma ReadsBackMangled(args: seq<string>)
    requires AllQuoteFree(args)
    ensures OptionTokens(Print(Cleaned(args))) == Mangled(args) <==> LastIsClean(args)
  {
    hide *;
    CleanedQuoteFree(args);
    SplitPrinted(Cleaned(args));
    CleanedLen(args);
    MangledLen(args);
    MangledLen(Cleaned(args));
    LastDiffers(args);
  }

  lemma LastDiffers(args: seq<string>)
    ensures !LastIsClean(args) ==> args != []
    ensures !LastIsClean(args) && CleanedLast(args[|args| - 1]) != "" ==>
      Mangle(CleanedLast(args[|args| - 1])) != Mangle(args[|args| - 1])
  {
    hide Escape;
    if !LastIsClean(args) {
      var a := args[|args| - 1];
      UnquotedFront(a, |CleanedLast(a)|);
    }
  }
}
