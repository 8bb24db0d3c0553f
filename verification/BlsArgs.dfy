// Kernel command lines in `options` values
// (toolkit/tools/pkg/imagecustomizerlib/blsutils.go:25-62) and the printer they
// must survive (toolkit/tools/pkg/imagecustomizerlib/grubcfgutils.go:616-631).
module BlsArgs {
  import opened GrubTokens
  import opened GrubQuoting
  import opened DefaultGrub

  datatype Arg = Arg(arg: string, name: string, value: string)

  // An argument is split at its first '='.
  function ArgOf(tok: string): Arg {
    var n := IndexOf(tok, '=');
    if n < |tok| then Arg(tok, tok[..n], tok[n + 1..]) else Arg(tok, tok, "")
  }

  lemma IndexUnique(tok: string, n: nat)
    requires n <= |tok| && (n < |tok| ==> tok[n] == '=') && forall k :: 0 <= k < n ==> tok[k] != '='
    ensures IndexOf(tok, '=') == n
  {
    IndexOfIs(tok, '=', n);
  }

  function Flush(cur: string): seq<string> {
    if cur == "" then [] else [cur]
  }

  // The arguments of the text v, of which the first begins with cur.
  function Split(v: string, cur: string, inQuotes: bool): seq<string> {
    if v == "" then Flush(cur)
    else if v[0] == '"' then Split(v[1..], cur, !inQuotes)
    else if !inQuotes && IsSpace(v[0]) then Flush(cur) + Split(v[1..], "", inQuotes)
    else Split(v[1..], cur + [v[0]], inQuotes)
  }

  function ArgsOf(toks: seq<string>): (r: seq<Arg>)
    ensures |r| == |toks|
    ensures forall k :: 0 <= k < |r| ==> r[k] == ArgOf(toks[k])
  {
    seq(|toks|, k requires 0 <= k < |toks| => ArgOf(toks[k]))
  }

  // The arguments of an options value.
  function OptionTokens(value: string): seq<string> {
    Split(value, "", false)
  }

  method ParseBLSOptionsValue(value: string) returns (args: seq<Arg>)
    ensures args == ArgsOf(OptionTokens(value))
  {
    hide ArgOf;
    args := [];
    var cur := "";
    var inQuotes := false;
    ghost var toks: seq<string> := [];
    assert value[0..] == value && [] + OptionTokens(value) == OptionTokens(value);
    for i := 0 to |value|
      invariant args == ArgsOf(toks)
      invariant toks + Split(value[i..], cur, inQuotes) == OptionTokens(value)
    {
      var c := value[i];
      assert value[i..][1..] == value[i + 1..];
      if c == '"' {
        inQuotes := !inQuotes;
      } else if !inQuotes && IsSpace(c) {
        assert toks + (Flush(cur) + Split(value[i + 1..], "", inQuotes)) == toks + Flush(cur) + Split(value[i + 1..], "", inQuotes);
        args := FlushArg(args, cur);
        toks := toks + Flush(cur);
        cur := "";
      } else {
        cur := cur + [c];
      }
    }
    args := FlushArg(args, cur);
    assert args == ArgsOf(toks + Flush(cur));
  }

  method FlushArg(args: seq<Arg>, cur: string) returns (r: seq<Arg>)
    ensures r == args + ArgsOf(Flush(cur))
  {
    hide ArgOf;
    if |cur| == 0 {
      assert args + [] == args;
      return args;
    }
    r := args + [ArgOf(cur)];
  }

  // The printed form of a list of arguments.
  function Print(args: seq<string>): string {
    if args == [] then ""
    else if |args| == 1 then QuoteIfNeeded(args[0])
    else QuoteIfNeeded(args[0]) + (" " + Print(args[1..]))
  }

  method GrubArgsToString(args: seq<string>) returns (r: string)
    ensures r == Print(args)
  {
    hide QuoteIfNeeded;
    r := "";
    assert args[0..] == args && "" + Print(args) == Print(args);
    for i := 0 to |args|
      invariant i == 0 ==> r == ""
      invariant r + (if i == 0 || i == |args| then "" else " ") + Print(args[i..]) == Print(args)
    {
      PrintStep(args, i);
      ghost var before := r;
      if i != 0 {
        r := r + " ";
      }
      assert r == before + (if i == 0 then "" else " ");
      var quotedArg := QuoteString(args[i]);
      Associate(r, quotedArg, if i + 1 == |args| then "" else " ", Print(args[i + 1..]));
      r := r + quotedArg;
    }
    assert r + "" + "" == r;
  }

  lemma PrintStep(args: seq<string>, i: nat)
    requires i < |args|
    ensures Print(args[i..]) == QuoteIfNeeded(args[i]) + ((if i + 1 == |args| then "" else " ") + Print(args[i + 1..]))
  {
    hide QuoteIfNeeded;
    assert args[i..][1..] == args[i + 1..];
    if i + 1 == |args| {
      assert QuoteIfNeeded(args[i]) + ("" + "") == QuoteIfNeeded(args[i]);
    }
  }

  lemma Associate(a: string, b: string, c: string, d: string)
    ensures a + (b + (c + d)) == a + b + c + d
  {
  }

  // -------------------------------------------- the lexer undoes the printer

  // What printing and reading back does to an argument without quotes: those
  // that need quoting come back with the backslashes that quoting added.
  function Mangle(a: string): string {
    if RequiresQuotes(a) then Escape(a) else a
  }

  function Mangled(args: seq<string>): seq<string> {
    if args == [] then [] else [Mangle(args[0])] + Mangled(args[1..])
  }

  predicate QuoteFree(a: string) {
    a != "" && '"' !in a
  }

  predicate AllQuoteFree(args: seq<string>) {
    forall k :: 0 <= k < |args| ==> QuoteFree(args[k])
  }

  predicate AllPrintable(args: seq<string>) {
    forall k :: 0 <= k < |args| ==> IsPrintable(args[k])
  }

  // The arguments that survive printing and reading back.
  predicate IsPrintable(a: string) {
    && QuoteFree(a)
    && '$' !in a
    && (RequiresQuotes(a) ==> '\\' !in a)
  }

  lemma {:induction false} SplitQuoted(x: string, rest: string, cur: string)
    requires '"' !in x
    ensures Split(x + ("\"" + rest), cur, true) == Split(rest, cur + x, false)
  {
    var t := x + ("\"" + rest);
    if x == "" {
      assert t == "\"" + rest && t[1..] == rest && cur + x == cur;
    } else {
      assert t[1..] == x[1..] + ("\"" + rest);
      SplitQuoted(x[1..], rest, cur + [x[0]]);
      assert cur + [x[0]] + x[1..] == cur + x;
    }
  }

  lemma {:induction false} SplitPlain(x: string, rest: string, cur: string)
    requires '"' !in x && forall k :: 0 <= k < |x| ==> !IsSpace(x[k])
    ensures Split(x + rest, cur, false) == Split(rest, cur + x, false)
  {
    var t := x + rest;
    if x == "" {
      assert t == rest && cur + x == cur;
    } else {
      assert t[1..] == x[1..] + rest;
      SplitPlain(x[1..], rest, cur + [x[0]]);
      assert cur + [x[0]] + x[1..] == cur + x;
    }
  }

  lemma {:induction false} EscapeQuoteFree(a: string)
    requires '"' !in a
    ensures '"' !in Escape(a) && |Escape(a)| >= |a|
    ensures Escape(a) == a <==> '$' !in a && '\\' !in a
  {
    if a == "" {
    } else {
      EscapeQuoteFree(a[1..]);
      assert a == [a[0]] + a[1..];
    }
  }

  lemma SplitOne(a: string, rest: string)
    requires QuoteFree(a)
    ensures Split(QuoteIfNeeded(a) + rest, "", false) == Split(rest, Mangle(a), false)
    ensures Mangle(a) != ""
  {
    EscapeQuoteFree(a);
    if RequiresQuotes(a) {
      var t := Quoted(a) + rest;
      assert t[0] == '"' && t[1..] == Escape(a) + ("\"" + rest);
      SplitQuoted(Escape(a), rest, "");
      assert "" + Escape(a) == Escape(a);
    } else {
      SplitPlain(a, rest, "");
      assert "" + a == a;
    }
  }

  lemma {:induction false} SplitPrinted(args: seq<string>)
    requires AllQuoteFree(args)
    ensures OptionTokens(Print(args)) == Mangled(args)
  {
    hide QuoteIfNeeded, Mangle, QuoteFree;
    if args == [] {
    } else {
      var rest := if |args| == 1 then "" else " " + Print(args[1..]);
      assert |args| == 1 ==> QuoteIfNeeded(args[0]) + "" == QuoteIfNeeded(args[0]);
      SplitOne(args[0], rest);
      SplitPrinted(args[1..]);
      if |args| > 1 {
        assert rest[1..] == Print(args[1..]);
      } else {
        assert Mangled(args[1..]) == [];
      }
    }
  }

  // Whatever is read is not empty and has no quotes.
  lemma {:induction false} SplitYields(v: string, cur: string, inQuotes: bool)
    requires '"' !in cur
    ensures AllQuoteFree(Split(v, cur, inQuotes))
    decreases |v|
  {
    assert cur != "" ==> QuoteFree(cur);
    hide QuoteFree;
    if v == "" {
    } else if v[0] == '"' {
      SplitYields(v[1..], cur, !inQuotes);
    } else if !inQuotes && IsSpace(v[0]) {
      SplitYields(v[1..], "", inQuotes);
    } else {
      SplitYields(v[1..], cur + [v[0]], inQuotes);
    }
  }

  lemma MangleKeeps(a: string)
    requires QuoteFree(a)
    ensures Mangle(a) == a <==> IsPrintable(a)
  {
    EscapeQuoteFree(a);
    assert '$' in a ==> RequiresQuotes(a);
  }

  lemma {:induction false} MangledKeeps(args: seq<string>)
    requires AllQuoteFree(args)
    ensures Mangled(args) == args <==> AllPrintable(args)
  {
    hide Mangle, QuoteFree, IsPrintable;
    if args == [] {
    } else {
      MangleKeeps(args[0]);
      MangledKeeps(args[1..]);
      assert args == [args[0]] + args[1..];
      assert Mangled(args) == args <==> Mangle(args[0]) == args[0] && Mangled(args[1..]) == args[1..];
    }
  }

  lemma PrintableIsQuoteFree(args: seq<string>)
    ensures AllPrintable(args) ==> AllQuoteFree(args)
  {
  }

  // Reading a printed list of arguments gives the list back exactly when every
  // argument is not empty, has no double quote and no dollar sign, and has no
  // backslash if it needs quotes.
  lemma PrintRoundTrip(args: seq<string>)
    ensures OptionTokens(Print(args)) == args <==> AllPrintable(args)
  {
    hide Split, Print, Mangled;
    if AllQuoteFree(args) {
      SplitPrinted(args);
      MangledKeeps(args);
    } else {
      SplitYields(Print(args), "", false);
      PrintableIsQuoteFree(args);
    }
  }
}
