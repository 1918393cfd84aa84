/** The shell's language as a grammar over tokens, with no parser in it, and the proof that the parser accepts
    exactly this language and returns the trees the grammar gives. */
module ShGrammar {
  import opened ShParse
  import opened ShTrees

  // ---------------------------------------------------------------------------------------
  // Tokens

  /** Space, tab, carriage return, newline or vertical tab. */
  predicate Blank(c: char)
  {
    c == ' ' || c == '\t' || c == '\r' || c == '\n' || c == 11 as char
  }

  predicate Special(c: char)
  {
    c == '<' || c == '|' || c == '>' || c == '&' || c == ';' || c == '(' || c == ')'
  }

  /** How many characters belong to the word at the beginning. */
  function WordLen(s: string): (n: nat)
    ensures n <= |s|
  {
    if s == "" || Blank(s[0]) || Special(s[0]) then 0 else 1 + WordLen(s[1..])
  }

  function TokenLen(s: string): (n: nat)
    requires s != "" && !Blank(s[0])
    ensures 0 < n <= |s|
  {
    if |s| > 1 && s[0] == '>' && s[1] == '>' then 2 else if Special(s[0]) then 1 else WordLen(s)
  }

  /** The tokens of a line: the longest words between blanks and symbols, and the symbols. */
  function Tokens(s: string): seq<string>
    decreases |s|
  {
    if s == "" then []
    else if Blank(s[0]) then Tokens(s[1..])
    else [s[..TokenLen(s)]] + Tokens(s[TokenLen(s)..])
  }

  // ---------------------------------------------------------------------------------------
  // The grammar

  predicate IsName(x: string)
  {
    x != "" && !Special(x[0])
  }

  predicate IsArrow(x: string)
  {
    x == "<" || x == ">" || x == ">>"
  }

  /** Input is opened for reading as descriptor 0; output for writing as 1, created, and cut off for `>`. */
  function Redirected(arrow: string, file: string): RText
  {
    if arrow == "<" then RText(file, 0x000, 0) else RText(file, if arrow == ">" then 0x601 else 0x201, 1)
  }

  datatype Parts = Parts(args: seq<string>, rl: seq<RText>) | NoParts

  /** A simple command: words, and redirections anywhere among them. */
  function PartsOf(ts: seq<string>): Parts
  {
    if ts == [] then Parts([], [])
    else if IsName(ts[0]) then
      var p := PartsOf(ts[1..]);
      if p.Parts? then Parts([ts[0]] + p.args, p.rl) else NoParts
    else if IsArrow(ts[0]) && |ts| > 1 && IsName(ts[1]) then
      var p := PartsOf(ts[2..]);
      if p.Parts? then Parts(p.args, [Redirected(ts[0], ts[1])] + p.rl) else NoParts
    else NoParts
  }

  /** line: a pipeline with any number of `&`; or such a one, `;` and a line. */
  ghost predicate IsLine(ts: seq<string>, t: Tree)
    decreases |ts|, 6
  {
    || IsBacked(ts, t)
    || exists k: nat :: IsLineAt(ts, t, k)
  }

  ghost predicate IsLineAt(ts: seq<string>, t: Tree, k: nat)
    decreases |ts|, 5
  {
    k < |ts| && ts[k] == ";" && t.TList? && IsBacked(ts[..k], t.left) && IsLine(ts[k + 1..], t.right)
  }

  ghost predicate IsBacked(ts: seq<string>, t: Tree)
    decreases |ts|, 4
  {
    || IsPipe(ts, t)
    || (ts != [] && ts[|ts| - 1] == "&" && t.TBack? && IsBacked(ts[..|ts| - 1], t.cmd))
  }

  /** pipe: a command; or a command, `|` and a pipe. */
  ghost predicate IsPipe(ts: seq<string>, t: Tree)
    decreases |ts|, 3
  {
    || IsCommand(ts, t)
    || exists k: nat :: IsPipeAt(ts, t, k)
  }

  ghost predicate IsPipeAt(ts: seq<string>, t: Tree, k: nat)
    decreases |ts|, 2
  {
    k < |ts| && ts[k] == "|" && t.TPipe? && IsCommand(ts[..k], t.left) && IsPipe(ts[k + 1..], t.right)
  }

  /** command: a simple command of at most nine words; or a line in parentheses, and redirections. */
  ghost predicate IsCommand(ts: seq<string>, t: Tree)
    decreases |ts|, 1
  {
    var p := PartsOf(ts);
    || (p.Parts? && |p.args| <= 9 && t == TWrap(TExec(p.args), p.rl))
    || exists k: nat, inner: Tree :: IsBlockAt(ts, t, k, inner)
  }

  ghost predicate IsBlockAt(ts: seq<string>, t: Tree, k: nat, inner: Tree)
    decreases |ts|, 0
  {
    && 0 < k < |ts| && ts[0] == "(" && ts[k] == ")" && IsLine(ts[1..k], inner)
    && var p := PartsOf(ts[k + 1..]); p.Parts? && p.args == [] && t == TWrap(inner, p.rl)
  }

  // ---------------------------------------------------------------------------------------
  // Tokens of the rest of the line

  function Rest(b: seq<char>, i: nat): seq<string>
    requires i <= |b|
  {
    Tokens(b[i..])
  }

  lemma Classes(c: char)
    ensures IsSpace(c) == Blank(c) && IsWordChar(c) == (!Blank(c) && !Special(c)) && (c in SYMBOLS) == Special(c)
  {
  }

  lemma {:induction false} SkipTokens(b: seq<char>, i: nat)
    requires i <= |b|
    ensures Rest(b, i) == Rest(b, SkipSpace(b, i))
    decreases |b| - i
  {
    if i < |b| && IsSpace(b[i]) {
      Classes(b[i]);
      assert b[i..][1..] == b[i + 1..];
      SkipTokens(b, i + 1);
    }
  }

  lemma {:induction false} WordEndLen(b: seq<char>, i: nat)
    requires i <= |b|
    ensures WordEnd(b, i) == i + WordLen(b[i..])
    decreases |b| - i
  {
    if i < |b| {
      Classes(b[i]);
      if IsWordChar(b[i]) {
        assert b[i..][1..] == b[i + 1..];
        WordEndLen(b, i + 1);
      }
    }
  }

  /** What peek sees. */
  lemma See(b: seq<char>, i: nat, toks: seq<char>)
    requires i <= |b|
    ensures var ts, j := Rest(b, i), SkipSpace(b, i);
      && (ts == [] <==> j == |b|)
      && (ts != [] ==> |ts[0]| > 0 && j < |b| && b[j] == ts[0][0] && IsOne(ts[0]))
      && (Peek(b, i, toks) <==> ts != [] && ts[0][0] in toks)
  {
    var j := SkipSpace(b, i);
    SkipTokens(b, i);
    if j < |b| {
      Classes(b[j]);
      var s := b[j..];
      assert s[0] == b[j] && Tokens(s)[0] == s[..TokenLen(s)];
    }
  }

  /** A word or a symbol. */
  predicate IsOne(x: string)
  {
    IsName(x) || IsArrow(x) || x == "|" || x == "&" || x == ";" || x == "(" || x == ")"
  }

  function KindOf(x: string): char
    requires x != ""
  {
    if x == ">>" then '+' else if Special(x[0]) then x[0] else 'a'
  }

  /** What gettoken takes. */
  lemma Take(b: seq<char>, i: nat)
    requires i <= |b| && Rest(b, i) != []
    ensures var ts, t := Rest(b, i), GetToken(b, i);
      && ts[0] != "" && t.kind == KindOf(ts[0]) && i < t.next <= |b| && Rest(b, t.next) == ts[1..]
      && (IsName(ts[0]) ==> WordOk(b, t.word) && TextOf(b, t.word) == ts[0])
  {
    hide GetToken; hide Tokens; hide TokenLen; hide SkipSpace; hide WordOk;
    AfterSkip(b, i);
    SkipTokens(b, i);
    var j := SkipSpace(b, i);
    TokenHere(b, j);
    var n := TokenLen(b[j..]);
    TokenEnds(b, j);
    SkipTokens(b, j + n);
    NameIsWord(b, j);
  }

  lemma AfterSkip(b: seq<char>, i: nat)
    requires i <= |b|
    ensures SkipSpace(b, SkipSpace(b, i)) == SkipSpace(b, i) && GetToken(b, SkipSpace(b, i)) == GetToken(b, i)
  {
  }

  lemma TokenHere(b: seq<char>, j: nat)
    requires j <= |b| && Rest(b, j) != [] && SkipSpace(b, j) == j
    ensures j < |b| && !Blank(b[j]) && b[j..] != "" && b[j..][0] == b[j]
    ensures var n := TokenLen(b[j..]);
      j + n <= |b| && Rest(b, j) == [b[j..j + n]] + Rest(b, j + n) && b[j..j + n] != "" && b[j..j + n][0] == b[j]
  {
    See(b, j, "");
    Classes(b[j]);
    var s, n := b[j..], TokenLen(b[j..]);
    assert s[0] == b[j] && s[n..] == b[j + n..] && s[..n] == b[j..j + n];
  }

  lemma NameIsWord(b: seq<char>, j: nat)
    requires j <= |b|
    ensures GetToken(b, j).kind == 'a' ==> WordOk(b, GetToken(b, j).word)
  {
  }

  lemma TokenEnds(b: seq<char>, j: nat)
    requires j < |b| && SkipSpace(b, j) == j && !Blank(b[j])
    ensures var n := TokenLen(b[j..]);
      GetToken(b, j) == Token(KindOf(b[j..j + n]), Word(j, j + n), SkipSpace(b, j + n))
  {
    var s := b[j..];
    assert s[0] == b[j] && (|s| > 1 ==> s[1] == b[j + 1]);
    Classes(b[j]);
    WordEndLen(b, j);
  }

  lemma TakeEnd(b: seq<char>, i: nat)
    requires i <= |b| && Rest(b, i) == []
    ensures GetToken(b, i).kind == END && Rest(b, GetToken(b, i).next) == []
  {
    See(b, i, "");
  }

  // ---------------------------------------------------------------------------------------
  // Simple commands

  lemma PartsAt(ts: seq<string>)
    ensures ts == [] ==> PartsOf(ts) == Parts([], [])
    ensures ts != [] && IsName(ts[0]) ==>
      PartsOf(ts) == (var p := PartsOf(ts[1..]); if p.Parts? then Parts([ts[0]] + p.args, p.rl) else NoParts)
    ensures ts != [] && !IsName(ts[0]) && IsArrow(ts[0]) && |ts| > 1 && IsName(ts[1]) ==>
      PartsOf(ts) ==
        (var p := PartsOf(ts[2..]); if p.Parts? then Parts(p.args, [Redirected(ts[0], ts[1])] + p.rl) else NoParts)
    ensures PartsOf(ts).Parts? && ts != [] && !IsName(ts[0]) ==> IsArrow(ts[0]) && |ts| > 1 && IsName(ts[1])
  {
  }

  lemma ArrowIsNoName(x: string)
    ensures IsArrow(x) ==> !IsName(x)
  {
  }

  lemma {:induction false} PartsConcat(xs: seq<string>, ys: seq<string>)
    requires PartsOf(xs).Parts?
    ensures var p, q := PartsOf(xs), PartsOf(ys);
      PartsOf(xs + ys) == if q.Parts? then Parts(p.args + q.args, p.rl + q.rl) else NoParts
    decreases |xs|
  {
    hide PartsOf; hide IsName; hide IsArrow; hide Redirected;
    var zs := xs + ys;
    PartsAt(xs);
    PartsAt(zs);
    if xs == [] {
      assert zs == ys;
    } else if IsName(xs[0]) {
      assert zs[1..] == xs[1..] + ys;
      PartsConcat(xs[1..], ys);
    } else {
      assert zs[2..] == xs[2..] + ys && zs[1] == xs[1];
      PartsConcat(xs[2..], ys);
    }
  }

  /** parseredirs reads one redirection. */
  lemma RedirStep(b: seq<char>, i: nat, rs: seq<Redirection>) returns (r: Redirection, k: nat)
    requires i <= |b| && RedirsWordsOk(b, rs)
    requires var ts := Rest(b, i); |ts| > 1 && IsArrow(ts[0]) && IsName(ts[1])
    ensures var ts := Rest(b, i);
      && WordOk(b, r.file) && ModeOk(r.mode, r.fd) && RText(TextOf(b, r.file), r.mode, r.fd) == Redirected(ts[0], ts[1])
      && i < k <= |b| && Rest(b, k) == ts[2..]
    ensures RedirsWordsOk(b, rs + [r]) && ParseRedirs(b, i, rs) == ParseRedirs(b, k, rs + [r])
    ensures RTexts(b, rs + [r]) == RTexts(b, rs) + [Redirected(Rest(b, i)[0], Rest(b, i)[1])]
  {
    hide GetToken; hide Peek; hide Rest;
    See(b, i, "<>");
    Take(b, i);
    var op := GetToken(b, i);
    Take(b, op.next);
    var file := GetToken(b, op.next);
    r, k := Redirection(file.word, ModeOf(op.kind), FdOf(op.kind)), file.next;
    OneMoreRedir(b, rs, r, Redirected(Rest(b, i)[0], Rest(b, i)[1]));
  }

  /** parseredirs ends before anything that is no arrow. */
  lemma RedirsEnd(b: seq<char>, i: nat, rs: seq<Redirection>)
    requires i <= |b| && RedirsWordsOk(b, rs)
    requires var ts := Rest(b, i); ts != [] ==> !IsArrow(ts[0])
    ensures ParseRedirs(b, i, rs) == RedirsOk(rs, SkipSpace(b, i)) && Rest(b, SkipSpace(b, i)) == Rest(b, i)
  {
    See(b, i, "<>");
    SkipTokens(b, i);
  }

  lemma {:induction false} RedirsComplete(b: seq<char>, i: nat, ts: seq<string>, rest: seq<string>,
            rs: seq<Redirection>)
    requires i <= |b| && RedirsWordsOk(b, rs) && Rest(b, i) == ts + rest
    requires PartsOf(ts).Parts? && PartsOf(ts).args == [] && (rest != [] ==> !IsArrow(rest[0]))
    ensures var r := ParseRedirs(b, i, rs);
      r.RedirsOk? && RTexts(b, r.rs) == RTexts(b, rs) + PartsOf(ts).rl && Rest(b, r.next) == rest
    decreases |ts|
  {
    hide ParseRedirs; hide Rest; hide RTexts; hide Redirected;
    if ts == [] {
      assert ts + rest == rest;
      RedirsEnd(b, i, rs);
    } else {
      var r, k := RedirStep(b, i, rs);
      assert (ts + rest)[2..] == ts[2..] + rest;
      RedirsComplete(b, k, ts[2..], rest, rs + [r]);
    }
  }

  lemma {:induction false} RedirsSound(b: seq<char>, i: nat, rs: seq<Redirection>) returns (n: nat)
    requires i <= |b| && RedirsWordsOk(b, rs) && ParseRedirs(b, i, rs).RedirsOk?
    ensures var ts, r := Rest(b, i), ParseRedirs(b, i, rs);
      && n <= |ts| && Rest(b, r.next) == ts[n..] && i <= r.next <= |b| && RedirsWordsOk(b, r.rs)
      && PartsOf(ts[..n]).Parts? && PartsOf(ts[..n]).args == []
      && RTexts(b, r.rs) == RTexts(b, rs) + PartsOf(ts[..n]).rl
      && (n < |ts| ==> !IsArrow(ts[n]))
    decreases |b| - i
  {
    hide Rest; hide RTexts; hide Redirected; hide ParseRedirs; hide PartsOf; hide IsArrow; hide IsName;
    var ts := Rest(b, i);
    if ts != [] && IsArrow(ts[0]) {
      ArrowNeedsName(b, i, rs);
      var r, k := RedirStep(b, i, rs);
      n := RedirsSound(b, k, rs + [r]);
      n := n + 2;
      assert ts[..n][2..] == ts[2..][..n - 2] && ts[2..][n - 2..] == ts[n..];
      ArrowIsNoName(ts[0]);
      PartsAt(ts[..n]);
    } else {
      RedirsEnd(b, i, rs);
      n := 0;
      assert ts[..0] == [] && ts[0..] == ts;
      PartsAt(ts[..0]);
    }
  }

  lemma ArrowNeedsName(b: seq<char>, i: nat, rs: seq<Redirection>)
    requires i <= |b| && RedirsWordsOk(b, rs) && ParseRedirs(b, i, rs).RedirsOk?
    requires Rest(b, i) != [] && IsArrow(Rest(b, i)[0])
    ensures |Rest(b, i)| > 1 && IsName(Rest(b, i)[1])
  {
    hide GetToken; hide Peek; hide Rest;
    See(b, i, "<>");
    Take(b, i);
    var k := GetToken(b, i).next;
    if Rest(b, k) == [] { TakeEnd(b, k); } else { Take(b, k); }
  }

  /** parseexec from its first parseredirs on, and each time round. */
  function ParseMore(b: seq<char>, i: nat, args: seq<Word>, rs: seq<Redirection>): (r: Parsed)
    requires i <= |b| && |args| < MAXARGS && RedirsWordsOk(b, rs) && forall k :: 0 <= k < |args| ==> WordOk(b, args[k])
    ensures r.Ok? ==> i <= r.next <= |b| && WordsOk(b, r.cmd)
  {
    match ParseRedirs(b, i, rs)
    case RedirsPanic => Panic
    case RedirsOk(rs', j) => ParseArgs(b, j, args, rs')
  }

  lemma SameMore(b: seq<char>, i: nat, k: nat, args: seq<Word>, rs: seq<Redirection>, rs': seq<Redirection>)
    requires i <= k <= |b| && |args| < MAXARGS && forall k :: 0 <= k < |args| ==> WordOk(b, args[k])
    requires RedirsWordsOk(b, rs) && RedirsWordsOk(b, rs') && ParseRedirs(b, i, rs) == ParseRedirs(b, k, rs')
    ensures ParseMore(b, i, args, rs) == ParseMore(b, k, args, rs')
  {
  }

  predicate Stops(rest: seq<string>)
  {
    rest == [] || rest[0] == "|" || rest[0] == "&" || rest[0] == ";" || rest[0] == ")"
  }

  lemma ArgsEnd(b: seq<char>, i: nat, args: seq<Word>, rs: seq<Redirection>)
    requires i <= |b| && |args| < MAXARGS && RedirsWordsOk(b, rs) && forall k :: 0 <= k < |args| ==> WordOk(b, args[k])
    requires Stops(Rest(b, i))
    ensures var r := ParseMore(b, i, args, rs); r.Ok? && r.cmd == Wrap(Exec(args), rs) && Rest(b, r.next) == Rest(b, i)
  {
    hide GetToken; hide Peek; hide Rest;
    RedirsEnd(b, i, rs);
    var j := SkipSpace(b, i);
    See(b, j, "|)&;");
    SkipTokens(b, j);
    if Rest(b, j) == [] { TakeEnd(b, SkipSpace(b, j)); }
  }

  /** parseexec reads one word. */
  lemma ArgStep(b: seq<char>, i: nat, args: seq<Word>, rs: seq<Redirection>) returns (w: Word, k: nat)
    requires i <= |b| && |args| < MAXARGS && RedirsWordsOk(b, rs) && forall k :: 0 <= k < |args| ==> WordOk(b, args[k])
    requires Rest(b, i) != [] && IsName(Rest(b, i)[0])
    ensures WordOk(b, w) && TextOf(b, w) == Rest(b, i)[0] && i < k <= |b| && Rest(b, k) == Rest(b, i)[1..]
    ensures ParseMore(b, i, args, rs) == if |args| + 1 < MAXARGS then ParseMore(b, k, args + [w], rs) else Panic
  {
    hide GetToken; hide Peek; hide Rest; hide ParseRedirs;
    RedirsEnd(b, i, rs);
    var j := SkipSpace(b, i);
    See(b, j, "|)&;");
    AfterSkip(b, i);
    Take(b, j);
    w, k := GetToken(b, j).word, GetToken(b, j).next;
  }

  lemma {:induction false} ArgsComplete(b: seq<char>, i: nat, ts: seq<string>, rest: seq<string>, args: seq<Word>,
            rs: seq<Redirection>)
    requires i <= |b| && |args| < MAXARGS && RedirsWordsOk(b, rs) && forall k :: 0 <= k < |args| ==> WordOk(b, args[k])
    requires Rest(b, i) == ts + rest && Stops(rest) && PartsOf(ts).Parts? && |args| + |PartsOf(ts).args| < MAXARGS
    ensures var r, p := ParseMore(b, i, args, rs), PartsOf(ts);
      && r.Ok? && Rest(b, r.next) == rest
      && Meaning(b, r.cmd) == TWrap(TExec(Texts(b, args) + p.args), RTexts(b, rs) + p.rl)
    decreases |ts|
  {
    hide Rest; hide RTexts; hide Texts; hide Redirected; hide Meaning; hide TWrap; hide Wrap; hide ParseArgs;
    hide ParseMore; hide ParseRedirs; hide PartsOf; hide IsArrow; hide IsName; hide Stops;
    PartsAt(ts);
    if ts == [] {
      assert ts + rest == rest;
      ArgsEnd(b, i, args, rs);
      MeaningWrap(b, Exec(args), rs);
      MeaningExec(b, args);
      assert Texts(b, args) + [] == Texts(b, args) && RTexts(b, rs) + [] == RTexts(b, rs);
    } else if IsName(ts[0]) {
      var w, k := ArgStep(b, i, args, rs);
      OneMoreText(b, args, w, ts[0]);
      assert (ts + rest)[1..] == ts[1..] + rest;
      ArgsComplete(b, k, ts[1..], rest, args + [w], rs);
      assert Texts(b, args) + [ts[0]] + PartsOf(ts[1..]).args == Texts(b, args) + PartsOf(ts).args;
    } else {
      var r, k := RedirStep(b, i, rs);
      SameMore(b, i, k, args, rs, rs + [r]);
      assert (ts + rest)[2..] == ts[2..] + rest;
      ArgsComplete(b, k, ts[2..], rest, args, rs + [r]);
      assert RTexts(b, rs) + [Redirected(ts[0], ts[1])] + PartsOf(ts[2..]).rl == RTexts(b, rs) + PartsOf(ts).rl;
    }
  }

  lemma {:induction false} ArgsSound(b: seq<char>, i: nat, args: seq<Word>, rs: seq<Redirection>) returns (n: nat)
    requires i <= |b| && |args| < MAXARGS && RedirsWordsOk(b, rs) && forall k :: 0 <= k < |args| ==> WordOk(b, args[k])
    requires ParseMore(b, i, args, rs).Ok?
    ensures var ts, r := Rest(b, i), ParseMore(b, i, args, rs);
      && n <= |ts| && Rest(b, r.next) == ts[n..]
      && var p := PartsOf(ts[..n]);
         p.Parts? && |args| + |p.args| < MAXARGS &&
         Meaning(b, r.cmd) == TWrap(TExec(Texts(b, args) + p.args), RTexts(b, rs) + p.rl)
    decreases |b| - i
  {
    hide Rest; hide RTexts; hide Texts; hide Redirected; hide Meaning; hide TWrap; hide Wrap; hide ParseArgs;
    hide ParseRedirs; hide ParseMore; hide PartsOf; hide IsArrow; hide IsName;
    var ts := Rest(b, i);
    PartsAt(ts[..0]);
    if Stops(ts) {
      ArgsEnd(b, i, args, rs);
      MeaningWrap(b, Exec(args), rs);
      MeaningExec(b, args);
      assert Texts(b, args) + [] == Texts(b, args) && RTexts(b, rs) + [] == RTexts(b, rs);
      n := 0;
      assert ts[..0] == [] && ts[0..] == ts;
    } else if IsName(ts[0]) {
      var w, k := ArgStep(b, i, args, rs);
      OneMoreText(b, args, w, ts[0]);
      n := ArgsSound(b, k, args + [w], rs);
      n := n + 1;
      assert ts[..n][1..] == ts[1..][..n - 1] && ts[1..][n - 1..] == ts[n..];
      PartsAt(ts[..n]);
      assert Texts(b, args) + [ts[0]] + PartsOf(ts[1..][..n - 1]).args == Texts(b, args) + PartsOf(ts[..n]).args;
    } else {
      NextIsArrow(b, i, args, rs);
      var r, k := RedirStep(b, i, rs);
      SameMore(b, i, k, args, rs, rs + [r]);
      n := ArgsSound(b, k, args, rs + [r]);
      n := n + 2;
      assert ts[..n][2..] == ts[2..][..n - 2] && ts[2..][n - 2..] == ts[n..];
      ArrowIsNoName(ts[0]);
      PartsAt(ts[..n]);
      assert RTexts(b, rs) + [Redirected(ts[0], ts[1])] + PartsOf(ts[2..][..n - 2]).rl ==
        RTexts(b, rs) + PartsOf(ts[..n]).rl;
    }
  }

  /** Where parseexec goes on with neither a word nor the end, there is an arrow and a name. */
  lemma NextIsArrow(b: seq<char>, i: nat, args: seq<Word>, rs: seq<Redirection>)
    requires i <= |b| && |args| < MAXARGS && RedirsWordsOk(b, rs) && forall k :: 0 <= k < |args| ==> WordOk(b, args[k])
    requires ParseMore(b, i, args, rs).Ok? && !Stops(Rest(b, i)) && !IsName(Rest(b, i)[0])
    ensures |Rest(b, i)| > 1 && IsArrow(Rest(b, i)[0]) && IsName(Rest(b, i)[1])
  {
    hide GetToken; hide Peek; hide Rest;
    var ts := Rest(b, i);
    See(b, i, "");
    if IsArrow(ts[0]) {
      ArrowNeedsName(b, i, rs);
    } else {
      RedirsEnd(b, i, rs);
      var j := SkipSpace(b, i);
      See(b, j, "|)&;");
      AfterSkip(b, i);
      Take(b, j);
    }
  }

  // ---------------------------------------------------------------------------------------
  // What the grammar derives, the parser accepts

  predicate StopsPipe(rest: seq<string>)
  {
    rest == [] || rest[0] == "&" || rest[0] == ";" || rest[0] == ")"
  }

  predicate StopsLine(rest: seq<string>)
  {
    rest == [] || rest[0] == ")"
  }

  lemma {:induction false} ExecComplete(b: seq<char>, i: nat, ts: seq<string>, rest: seq<string>, t: Tree)
    requires i <= |b| && Rest(b, i) == ts + rest && IsCommand(ts, t) && Stops(rest)
    ensures var r := ParseExec(b, i); r.Ok? && Meaning(b, r.cmd) == t && Rest(b, r.next) == rest
    decreases |ts|, 0
  {
    hide Rest; hide PartsOf; hide TWrap; hide IsLine; hide ParseExec; hide Meaning;
    var p := PartsOf(ts);
    if p.Parts? && |p.args| <= 9 && t == TWrap(TExec(p.args), p.rl) {
      SimpleComplete(b, i, ts, rest);
    } else {
      var k: nat, inner: Tree :| IsBlockAt(ts, t, k, inner);
      var m := OpenParen(b, i);
      InParens(ts, k, rest);
      LineComplete(b, m, ts[1..k], [")"] + (ts[k + 1..] + rest), inner);
      CloseParen(b, i, m, ts[k + 1..], rest);
    }
  }

  lemma SimpleComplete(b: seq<char>, i: nat, ts: seq<string>, rest: seq<string>)
    requires i <= |b| && Rest(b, i) == ts + rest && Stops(rest) && PartsOf(ts).Parts? && |PartsOf(ts).args| <= 9
    ensures var r, p := ParseExec(b, i), PartsOf(ts);
      r.Ok? && Meaning(b, r.cmd) == TWrap(TExec(p.args), p.rl) && Rest(b, r.next) == rest
  {
    hide Rest; hide PartsOf; hide TWrap; hide Meaning; hide ParseRedirs; hide ParseArgs; hide Peek;
    See(b, i, "(");
    PartsAt(ts);
    SkipTokens(b, i);
    var p := PartsOf(ts);
    ArgsComplete(b, SkipSpace(b, i), ts, rest, [], []);
    assert Texts(b, []) + p.args == p.args && RTexts(b, []) + p.rl == p.rl;
  }

  lemma InParens(ts: seq<string>, k: nat, rest: seq<string>)
    requires 0 < k < |ts| && ts[k] == ")"
    ensures (ts + rest)[1..] == ts[1..k] + ([")"] + (ts[k + 1..] + rest))
  {
  }

  lemma OpenParen(b: seq<char>, i: nat) returns (m: nat)
    requires i <= |b| && Rest(b, i) != [] && Rest(b, i)[0] == "("
    ensures var j := SkipSpace(b, i);
      && j < m <= |b| && i < m && Rest(b, m) == Rest(b, i)[1..] && Peek(b, i, "(") && Peek(b, j, "(")
      && GetToken(b, j).next == m
  {
    hide Rest; hide GetToken;
    var j := SkipSpace(b, i);
    See(b, i, "(");
    SkipTokens(b, i);
    See(b, j, "(");
    AfterSkip(b, i);
    Take(b, j);
    m := GetToken(b, j).next;
  }

  lemma CloseParen(b: seq<char>, i: nat, m: nat, ts: seq<string>, rest: seq<string>)
    requires i <= |b| && m <= |b| && Stops(rest)
    requires var j := SkipSpace(b, i); Peek(b, i, "(") && Peek(b, j, "(") && GetToken(b, j).next == m
    requires ParseLine(b, m).Ok? && Rest(b, ParseLine(b, m).next) == [")"] + (ts + rest)
    requires PartsOf(ts).Parts? && PartsOf(ts).args == []
    ensures var r := ParseExec(b, i);
      && r.Ok? && Meaning(b, r.cmd) == TWrap(Meaning(b, ParseLine(b, m).cmd), PartsOf(ts).rl)
      && Rest(b, r.next) == rest
  {
    hide Rest; hide PartsOf; hide TWrap; hide Meaning; hide GetToken; hide Peek; hide ParseLine; hide Wrap;
    var c, j, tail := ParseLine(b, m).cmd, ParseLine(b, m).next, ts + rest;
    See(b, j, ")");
    Take(b, j);
    assert ([")"] + tail)[1..] == tail;
    var n := GetToken(b, j).next;
    RedirsComplete(b, n, ts, rest, []);
    assert RTexts(b, []) + PartsOf(ts).rl == PartsOf(ts).rl;
    MeaningWrap(b, c, ParseRedirs(b, n, []).rs);
  }

  lemma {:induction false} PipeComplete(b: seq<char>, i: nat, ts: seq<string>, rest: seq<string>, t: Tree)
    requires i <= |b| && Rest(b, i) == ts + rest && IsPipe(ts, t) && StopsPipe(rest)
    ensures var r := ParsePipe(b, i); r.Ok? && Meaning(b, r.cmd) == t && Rest(b, r.next) == rest
    decreases |ts|, 1
  {
    hide Rest; hide GetToken; hide Peek; hide IsCommand; hide ParseExec;
    if IsCommand(ts, t) {
      ExecComplete(b, i, ts, rest, t);
      var j := ParseExec(b, i).next;
      See(b, j, "|");
      SkipTokens(b, j);
    } else {
      var k: nat :| IsPipeAt(ts, t, k);
      var tail := ts[k + 1..] + rest;
      assert ts + rest == ts[..k] + (["|"] + tail);
      ExecComplete(b, i, ts[..k], ["|"] + tail, t.left);
      var j := ParseExec(b, i).next;
      See(b, j, "|");
      Take(b, j);
      assert (["|"] + tail)[1..] == tail;
      PipeComplete(b, GetToken(b, j).next, ts[k + 1..], rest, t.right);
    }
  }

  /** The first half of parseline. */
  lemma {:induction false} BackComplete(b: seq<char>, i: nat, ts: seq<string>, rest: seq<string>, t: Tree)
            returns (c: Cmd, j: nat)
    requires i <= |b| && Rest(b, i) == ts + rest && IsBacked(ts, t) && StopsPipe(rest)
    ensures ParsePipe(b, i).Ok? && WordsOk(b, c) && Meaning(b, c) == t && j <= |b| && Rest(b, j) == rest
    ensures ParseBacks(b, ParsePipe(b, i).next, ParsePipe(b, i).cmd) == ParseBacks(b, j, c)
    decreases |ts|, 2
  {
    hide Rest; hide GetToken; hide Peek; hide IsPipe; hide ParsePipe;
    if IsPipe(ts, t) {
      PipeComplete(b, i, ts, rest, t);
      c, j := ParsePipe(b, i).cmd, ParsePipe(b, i).next;
    } else {
      var n := |ts| - 1;
      assert ts + rest == ts[..n] + (["&"] + rest);
      var d, k := BackComplete(b, i, ts[..n], ["&"] + rest, t.cmd);
      See(b, k, "&");
      Take(b, k);
      assert (["&"] + rest)[1..] == rest;
      c, j := Back(d), GetToken(b, k).next;
    }
  }

  lemma {:induction false} LineComplete(b: seq<char>, i: nat, ts: seq<string>, rest: seq<string>, t: Tree)
    requires i <= |b| && Rest(b, i) == ts + rest && IsLine(ts, t) && StopsLine(rest)
    ensures var r := ParseLine(b, i); r.Ok? && Meaning(b, r.cmd) == t && Rest(b, r.next) == rest
    decreases |ts|, 3
  {
    hide Rest; hide GetToken; hide Peek; hide IsBacked; hide ParsePipe;
    if IsBacked(ts, t) {
      var c, j := BackComplete(b, i, ts, rest, t);
      See(b, j, "&");
      SkipTokens(b, j);
      See(b, SkipSpace(b, j), ";");
      SkipTokens(b, SkipSpace(b, j));
    } else {
      var k: nat :| IsLineAt(ts, t, k);
      var tail := ts[k + 1..] + rest;
      assert ts + rest == ts[..k] + ([";"] + tail);
      var c, j := BackComplete(b, i, ts[..k], [";"] + tail, t.left);
      See(b, j, "&");
      SkipTokens(b, j);
      var m := SkipSpace(b, j);
      See(b, m, ";");
      Take(b, m);
      assert ([";"] + tail)[1..] == tail;
      LineComplete(b, GetToken(b, m).next, ts[k + 1..], rest, t.right);
    }
  }

  // ---------------------------------------------------------------------------------------
  // What the parser accepts, the grammar derives

  lemma {:induction false} ExecSound(b: seq<char>, i: nat) returns (n: nat)
    requires i <= |b| && ParseExec(b, i).Ok?
    ensures var ts, r := Rest(b, i), ParseExec(b, i);
      n <= |ts| && IsCommand(ts[..n], Meaning(b, r.cmd)) && Rest(b, r.next) == ts[n..]
    decreases |b| - i, 1
  {
    hide Rest; hide GetToken; hide Peek; hide PartsOf; hide TWrap; hide IsLine; hide Meaning; hide ParseBlock;
    hide ParseArgs; hide ParseRedirs;
    var ts, j := Rest(b, i), SkipSpace(b, i);
    SkipTokens(b, i);
    if Peek(b, i, "(") {
      See(b, i, "(");
      var m := OpenParen(b, i);
      n := BlockSound(b, j, m);
    } else {
      n := ArgsSound(b, j, [], []);
      var p := PartsOf(ts[..n]);
      assert Texts(b, []) + p.args == p.args && RTexts(b, []) + p.rl == p.rl;
    }
  }

  lemma {:induction false} BlockSound(b: seq<char>, j: nat, m: nat) returns (n: nat)
    requires j <= |b| && Peek(b, j, "(") && Rest(b, j) != [] && Rest(b, j)[0] == "("
    requires GetToken(b, j).next == m && j < m <= |b| && Rest(b, m) == Rest(b, j)[1..] && ParseBlock(b, j).Ok?
    ensures var ts, r := Rest(b, j), ParseBlock(b, j);
      n <= |ts| && IsCommand(ts[..n], Meaning(b, r.cmd)) && Rest(b, r.next) == ts[n..]
    decreases |b| - j, 0
  {
    hide Rest; hide GetToken; hide Peek; hide PartsOf; hide TWrap; hide IsLine; hide Meaning; hide ParseLine;
    hide ParseRedirs; hide Wrap;
    var ts := Rest(b, j);
    var l := LineSound(b, m);
    var c, e := ParseLine(b, m).cmd, ParseLine(b, m).next;
    See(b, e, ")");
    Take(b, e);
    var o := GetToken(b, e).next;
    var q := RedirsSound(b, o, []);
    var k := l + 1;
    n := k + 1 + q;
    assert ts[1..][l..][1..] == ts[k + 1..] && ts[1..][l] == ts[k];
    assert ts[k + 1..][q..] == ts[n..];
    MeaningWrap(b, c, ParseRedirs(b, o, []).rs);
    assert RTexts(b, []) + PartsOf(ts[k + 1..][..q]).rl == PartsOf(ts[k + 1..][..q]).rl;
    var us := ts[..n];
    assert us[1..k] == ts[1..][..l] && us[k + 1..] == ts[k + 1..][..q];
    assert IsBlockAt(us, Meaning(b, ParseBlock(b, j).cmd), k, Meaning(b, c));
  }

  lemma {:induction false} PipeSound(b: seq<char>, i: nat) returns (n: nat)
    requires i <= |b| && ParsePipe(b, i).Ok?
    ensures var ts, r := Rest(b, i), ParsePipe(b, i);
      n <= |ts| && IsPipe(ts[..n], Meaning(b, r.cmd)) && Rest(b, r.next) == ts[n..]
    decreases |b| - i, 2
  {
    hide Rest; hide GetToken; hide Peek; hide IsCommand; hide ParseExec;
    var ts := Rest(b, i);
    n := ExecSound(b, i);
    var j := ParseExec(b, i).next;
    See(b, j, "|");
    SkipTokens(b, j);
    if Peek(b, j, "|") {
      Take(b, j);
      var k := n;
      var m := PipeSound(b, GetToken(b, j).next);
      n := k + 1 + m;
      assert ts[k..][1..] == ts[k + 1..] && ts[k + 1..][m..] == ts[n..] && ts[k..][0] == ts[k];
      var us := ts[..n];
      assert us[..k] == ts[..k] && us[k + 1..] == ts[k + 1..][..m];
      assert IsPipeAt(us, Meaning(b, ParsePipe(b, i).cmd), k);
    }
  }

  /** The loop of parseline, from `j` on, with `n` tokens behind it. */
  lemma {:induction false} BacksSound(b: seq<char>, ts: seq<string>, j: nat, c: Cmd, n: nat) returns (m: nat)
    requires j <= |b| && WordsOk(b, c) && n <= |ts| && Rest(b, j) == ts[n..] && IsBacked(ts[..n], Meaning(b, c))
    ensures var r := ParseBacks(b, j, c);
      m <= |ts| && IsBacked(ts[..m], Meaning(b, r.cmd)) && Rest(b, r.next) == ts[m..]
    decreases |b| - j
  {
    hide Rest; hide GetToken; hide Peek; hide IsPipe;
    See(b, j, "&");
    SkipTokens(b, j);
    if Peek(b, j, "&") {
      Take(b, j);
      assert ts[n..][1..] == ts[n + 1..] && ts[n..][0] == ts[n];
      var us := ts[..n + 1];
      assert us[..n] == ts[..n] && us[|us| - 1] == "&";
      m := BacksSound(b, ts, GetToken(b, j).next, Back(c), n + 1);
    } else {
      m := n;
    }
  }

  lemma {:induction false} LineSound(b: seq<char>, i: nat) returns (n: nat)
    requires i <= |b| && ParseLine(b, i).Ok?
    ensures var ts, r := Rest(b, i), ParseLine(b, i);
      n <= |ts| && IsLine(ts[..n], Meaning(b, r.cmd)) && Rest(b, r.next) == ts[n..]
    decreases |b| - i, 3
  {
    hide Rest; hide GetToken; hide Peek; hide ParsePipe; hide ParseBacks; hide IsPipe;
    var ts := Rest(b, i);
    n := PipeSound(b, i);
    var p := ParsePipe(b, i);
    n := BacksSound(b, ts, p.next, p.cmd, n);
    hide IsBacked;
    var r := ParseBacks(b, p.next, p.cmd);
    var j := r.next;
    See(b, j, ";");
    SkipTokens(b, j);
    if Peek(b, j, ";") {
      Take(b, j);
      var k := n;
      var m := LineSound(b, GetToken(b, j).next);
      n := k + 1 + m;
      assert ts[k..][1..] == ts[k + 1..] && ts[k + 1..][m..] == ts[n..] && ts[k..][0] == ts[k];
      var us := ts[..n];
      assert us[..k] == ts[..k] && us[k + 1..] == ts[k + 1..][..m];
      assert IsLineAt(us, Meaning(b, ParseLine(b, i).cmd), k);
    }
  }

  // ---------------------------------------------------------------------------------------

  /** The parser accepts a line exactly if the grammar derives its tokens, and returns the tree derived; so a
      line has one tree at most, and blanks between the tokens do not matter. */
  lemma ParsesGrammar(b: seq<char>, t: Tree)
    ensures ParseCmd(b).Ok? && Meaning(b, ParseCmd(b).cmd) == t <==> IsLine(Tokens(b), t)
  {
    hide Meaning; hide IsLine; hide ParseLine; hide Tokens;
    var ts := Rest(b, 0);
    assert b[0..] == b && ts + [] == ts;
    if IsLine(ts, t) {
      LineComplete(b, 0, ts, [], t);
      See(b, ParseLine(b, 0).next, "");
    }
    if ParseCmd(b).Ok? {
      var n := LineSound(b, 0);
      See(b, ParseLine(b, 0).next, "");
      assert ts[..n] == ts;
    }
  }

  /** A line that the parser refuses has no derivation at all. */
  lemma RefusedOnly(b: seq<char>)
    ensures ParseCmd(b).Panic? <==> forall t :: !IsLine(Tokens(b), t)
  {
    forall t | IsLine(Tokens(b), t) ensures ParseCmd(b).Ok? { ParsesGrammar(b, t); }
    if ParseCmd(b).Ok? { ParsesGrammar(b, Meaning(b, ParseCmd(b).cmd)); }
  }
}
