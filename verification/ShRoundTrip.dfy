/** Printing a command tree and parsing the text gives the tree back. */
module ShRoundTrip {
  import opened ShParse
  import opened ShTrees
  import opened ShGrammar

  /** A word as text: not empty, and no space, symbol or NUL in it. */
  predicate IsWord(w: string)
  {
    w != "" && forall k :: 0 <= k < |w| ==> IsWordChar(w[k]) && w[k] != END
  }

  /** At most nine arguments for each command, and the parser's own modes for redirections. */
  predicate TreeOk(t: Tree)
  {
    match t
    case TExec(args) => |args| < MAXARGS && forall i :: 0 <= i < |args| ==> IsWord(args[i])
    case TRedir(x, file, mode, fd) => TreeOk(x) && IsWord(file) && ModeOk(mode, fd)
    case TPipe(l, r) => TreeOk(l) && TreeOk(r)
    case TList(l, r) => TreeOk(l) && TreeOk(r)
    case TBack(x) => TreeOk(x)
  }

  // ---------------------------------------------------------------------------------------
  // The printer

  function Level(t: Tree): nat
  {
    if t.TList? then 0 else if t.TBack? then 1 else if t.TPipe? then 2 else 3
  }

  function OpText(mode: nat, fd: nat): string
  {
    if fd == 0 then "<" else if mode == O_WRONLY + O_CREATE + O_TRUNC then ">" else ">>"
  }

  /** The tokens of a tree, in parentheses where the grammar wants a tree of a higher level. */
  function Toks(t: Tree, level: nat): seq<string>
    decreases t, 1
  {
    if Level(t) >= level then Bare(t) else ["("] + Bare(t) + [")"]
  }

  function Bare(t: Tree): seq<string>
    decreases t, 0
  {
    match t
    case TExec(args) => args
    case TRedir(x, file, mode, fd) => Toks(x, 3) + [OpText(mode, fd), file]
    case TPipe(l, r) => Toks(l, 3) + ["|"] + Toks(r, 2)
    case TList(l, r) => Toks(l, 1) + [";"] + Toks(r, 0)
    case TBack(x) => Toks(x, 1) + ["&"]
  }

  /** Every token is followed by a space. */
  function Flat(ts: seq<string>): string
  {
    if ts == [] then "" else ts[0] + " " + Flat(ts[1..])
  }

  function Print(t: Tree): string
  {
    Flat(Toks(t, 0))
  }

  // ---------------------------------------------------------------------------------------
  // What is printed is derived

  lemma {:induction false} WordsOnly(args: seq<string>)
    requires forall i :: 0 <= i < |args| ==> IsWord(args[i])
    ensures PartsOf(args) == Parts(args, [])
  {
    if args != [] {
      FirstChar(args[0]);
      WordsOnly(args[1..]);
      assert [args[0]] + args[1..] == args;
    }
  }

  /** A command with one redirection more. */
  lemma OneMoreArrow(ts: seq<string>, x: Tree, file: string, mode: nat, fd: nat)
    requires IsCommand(ts, x) && IsWord(file) && ModeOk(mode, fd)
    ensures IsCommand(ts + [OpText(mode, fd), file], TRedir(x, file, mode, fd))
  {
    hide IsLine; hide PartsOf; hide OpText; hide TWrap; hide IsWord; hide ModeOk;
    ArrowParts(file, mode, fd);
    var p := PartsOf(ts);
    if p.Parts? && |p.args| <= 9 && x == TWrap(TExec(p.args), p.rl) {
      ArrowAfter(ts, TExec(p.args), file, mode, fd);
    } else {
      var k: nat, inner: Tree :| IsBlockAt(ts, x, k, inner);
      ArrowAfter(ts[k + 1..], inner, file, mode, fd);
      var us := [OpText(mode, fd), file];
      var vs := ts + us;
      assert vs[1..k] == ts[1..k] && vs[k + 1..] == ts[k + 1..] + us;
      assert IsBlockAt(vs, TRedir(x, file, mode, fd), k, inner);
    }
  }

  lemma ArrowAfter(ts: seq<string>, x: Tree, file: string, mode: nat, fd: nat)
    requires PartsOf(ts).Parts? && IsWord(file) && ModeOk(mode, fd)
    ensures var p, q := PartsOf(ts), PartsOf(ts + [OpText(mode, fd), file]);
      q.Parts? && q.args == p.args && TWrap(x, q.rl) == TRedir(TWrap(x, p.rl), file, mode, fd)
  {
    hide PartsOf; hide OpText; hide IsWord; hide ModeOk;
    ArrowParts(file, mode, fd);
    PartsConcat(ts, [OpText(mode, fd), file]);
    var p, r := PartsOf(ts), RText(file, mode, fd);
    assert p.args + [] == p.args && (p.rl + [r])[..|p.rl|] == p.rl;
  }

  lemma ArrowParts(file: string, mode: nat, fd: nat)
    requires IsWord(file) && ModeOk(mode, fd)
    ensures PartsOf([OpText(mode, fd), file]) == Parts([], [RText(file, mode, fd)])
  {
    FirstChar(file);
    var us := [OpText(mode, fd), file];
    assert us[2..] == [] && IsArrow(us[0]) && !IsName(us[0]);
    assert PartsOf([]) == Parts([], []);
    assert Redirected(us[0], file) == RText(file, mode, fd);
  }

  lemma Upwards(ts: seq<string>, t: Tree)
    ensures (IsCommand(ts, t) ==> IsPipe(ts, t)) && (IsPipe(ts, t) ==> IsBacked(ts, t))
    ensures IsBacked(ts, t) ==> IsLine(ts, t)
  {
    hide IsCommand;
  }

  lemma PipeDerives(us: seq<string>, vs: seq<string>, l: Tree, r: Tree)
    requires IsCommand(us, l) && IsPipe(vs, r)
    ensures IsPipe(us + ["|"] + vs, TPipe(l, r))
  {
    hide IsCommand;
    var ts, k := us + ["|"] + vs, |us|;
    assert ts[..k] == us && ts[k + 1..] == vs && ts[k] == "|";
    assert IsPipeAt(ts, TPipe(l, r), k);
  }

  lemma ListDerives(us: seq<string>, vs: seq<string>, l: Tree, r: Tree)
    requires IsBacked(us, l) && IsLine(vs, r)
    ensures IsLine(us + [";"] + vs, TList(l, r))
  {
    hide IsBacked;
    var ts, k := us + [";"] + vs, |us|;
    assert ts[..k] == us && ts[k + 1..] == vs && ts[k] == ";";
    assert IsLineAt(ts, TList(l, r), k);
  }

  lemma BackDerives(us: seq<string>, x: Tree)
    requires IsBacked(us, x)
    ensures IsBacked(us + ["&"], TBack(x))
  {
    hide IsPipe;
    var ts := us + ["&"];
    assert ts[..|ts| - 1] == us && ts[|ts| - 1] == "&";
  }

  lemma {:induction false} BareDerives(t: Tree)
    requires TreeOk(t)
    ensures IsLine(Bare(t), t) && (!t.TList? ==> IsBacked(Bare(t), t))
    ensures (!t.TList? && !t.TBack? ==> IsPipe(Bare(t), t)) && (t.TExec? || t.TRedir? ==> IsCommand(Bare(t), t))
    decreases t, 0
  {
    hide IsCommand; hide IsPipe; hide IsBacked; hide IsLine; hide Toks;
    Upwards(Bare(t), t);
    match t
    case TExec(args) =>
      ExecDerives(args);
    case TRedir(x, file, mode, fd) =>
      ToksDerive(x);
      OneMoreArrow(Toks(x, 3), x, file, mode, fd);
    case TPipe(l, r) =>
      ToksDerive(l);
      ToksDerive(r);
      PipeDerives(Toks(l, 3), Toks(r, 2), l, r);
    case TList(l, r) =>
      ToksDerive(l);
      ToksDerive(r);
      ListDerives(Toks(l, 1), Toks(r, 0), l, r);
    case TBack(x) =>
      ToksDerive(x);
      BackDerives(Toks(x, 1), x);
  }

  lemma ExecDerives(args: seq<string>)
    requires TreeOk(TExec(args))
    ensures IsCommand(args, TExec(args))
  {
    WordsOnly(args);
  }

  lemma ParensDerive(us: seq<string>, t: Tree)
    requires IsLine(us, t)
    ensures IsCommand(["("] + us + [")"], t)
  {
    hide IsLine;
    var ts, k := ["("] + us + [")"], |us| + 1;
    assert ts[1..k] == us && ts[k + 1..] == [] && ts[k] == ")";
    assert IsBlockAt(ts, t, k, t);
  }

  /** The tokens of a tree are derived at each level of the grammar. */
  lemma {:induction false} ToksDerive(t: Tree)
    requires TreeOk(t)
    ensures IsLine(Toks(t, 0), t) && IsBacked(Toks(t, 1), t) && IsPipe(Toks(t, 2), t) && IsCommand(Toks(t, 3), t)
    decreases t, 1
  {
    hide IsCommand; hide IsPipe; hide IsBacked; hide IsLine; hide Bare;
    BareDerives(t);
    var us := ["("] + Bare(t) + [")"];
    ParensDerive(Bare(t), t);
    Upwards(us, t);
    Upwards(Bare(t), t);
  }

  // ---------------------------------------------------------------------------------------
  // The tokens of what is printed

  predicate IsToken(x: string)
  {
    x in ["<", ">", ">>", "|", "&", ";", "(", ")"] || IsWord(x)
  }

  predicate AreTokens(ts: seq<string>)
  {
    forall i :: 0 <= i < |ts| ==> IsToken(ts[i])
  }

  lemma FirstChar(x: string)
    requires IsToken(x)
    ensures |x| > 0 && !Blank(x[0]) && (IsWord(x) <==> IsName(x))
    ensures IsWord(x) ==> forall k :: 0 <= k < |x| ==> !Blank(x[k]) && !Special(x[k])
  {
    if IsWord(x) { forall k | 0 <= k < |x| ensures !Blank(x[k]) && !Special(x[k]) { Classes(x[k]); } }
  }

  lemma OpIsToken(mode: nat, fd: nat)
    requires ModeOk(mode, fd)
    ensures IsToken(OpText(mode, fd))
  {
  }

  lemma {:induction false} WordLenIs(x: string, rest: string)
    requires forall k :: 0 <= k < |x| ==> !Blank(x[k]) && !Special(x[k])
    ensures WordLen(x + " " + rest) == |x|
  {
    var s := x + " " + rest;
    if x != "" {
      assert s[0] == x[0] && s[1..] == x[1..] + " " + rest;
      WordLenIs(x[1..], rest);
    }
  }

  lemma TokenLenIs(x: string, rest: string)
    requires IsToken(x)
    ensures var s := x + " " + rest; s != "" && s[0] == x[0] && !Blank(s[0]) && TokenLen(s) == |x|
  {
    FirstChar(x);
    var s := x + " " + rest;
    assert s[0] == x[0] && |s| > 1 && s[|x|] == ' ';
    if IsWord(x) { WordLenIs(x, rest); }
  }

  lemma {:induction false} PrintedTokens(ts: seq<string>)
    requires AreTokens(ts)
    ensures Tokens(Flat(ts)) == ts
  {
    if ts != [] {
      var s := Flat(ts);
      assert IsToken(ts[0]);
      TokenLenIs(ts[0], Flat(ts[1..]));
      assert s[|ts[0]|..] == " " + Flat(ts[1..]) && s[..|ts[0]|] == ts[0];
      assert (" " + Flat(ts[1..]))[1..] == Flat(ts[1..]);
      PrintedTokens(ts[1..]);
      assert ts == [ts[0]] + ts[1..];
    }
  }

  lemma {:induction false} ToksOk(t: Tree, level: nat)
    requires TreeOk(t)
    ensures AreTokens(Toks(t, level))
    decreases t, 1
  {
    BareOk(t);
  }

  lemma BareOk(t: Tree)
    requires TreeOk(t)
    ensures AreTokens(Bare(t))
    decreases t, 0
  {
    match t
    case TExec(args) =>
    case TRedir(x, file, mode, fd) => ToksOk(x, 3); OpIsToken(mode, fd);
    case TPipe(l, r) => ToksOk(l, 3); ToksOk(r, 2);
    case TList(l, r) => ToksOk(l, 1); ToksOk(r, 0);
    case TBack(x) => ToksOk(x, 1);
  }

  // ---------------------------------------------------------------------------------------

  /** Any line with the tokens of a tree, whatever blanks lie between and around them, parses to that tree. */
  lemma TokensTrip(t: Tree, b: seq<char>)
    requires TreeOk(t) && Tokens(b) == Toks(t, 0)
    ensures var r := ParseCmd(b); r.Ok? && Meaning(b, r.cmd) == t
  {
    ToksDerive(t);
    ParsesGrammar(b, t);
  }

  /** Parsing the printed form of a tree gives the tree back. */
  lemma RoundTrip(t: Tree)
    requires TreeOk(t)
    ensures var b := Print(t);
      var r := ParseCmd(b);
      r.Ok? && Meaning(b, r.cmd) == t
  {
    ToksOk(t, 0);
    PrintedTokens(Toks(t, 0));
    TokensTrip(t, Print(t));
  }

  /** A printed tree is a C string: there is no NUL in it. */
  lemma {:induction false} NoNul(ts: seq<string>)
    requires AreTokens(ts)
    ensures forall k :: 0 <= k < |Flat(ts)| ==> Flat(ts)[k] != END
  {
    if ts != [] {
      NoNul(ts[1..]);
      assert IsToken(ts[0]);
    }
  }
}
