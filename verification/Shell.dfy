/** user/sh.c's parser over its character buffer: a cursor advanced by loops, and the termination of
    the words in place.  Where the source panics the methods return `ok == false`. */
module Shell {
  import opened ShParse

  /** The buffer holds a string of `n` characters and its NUL. */
  ghost predicate IsString(buf: array<char>, n: nat)
    reads buf
  {
    n < buf.Length && buf[n] == END && forall k :: 0 <= k < n ==> buf[k] != END
  }

  /** strchr(set, c), for a character that is not NUL. */
  predicate StrChr(chars: seq<char>, c: char)
  {
    c in chars
  }

  method SkipSpaces(buf: array<char>, n: nat, start: nat) returns (s: nat)
    requires IsString(buf, n) && start <= n
    ensures s == SkipSpace(buf[..n], start)
  {
    s := start;
    while s < n && StrChr(WHITESPACE, buf[s])
      invariant start <= s <= n && SkipSpace(buf[..n], s) == SkipSpace(buf[..n], start)
      decreases n - s
    {
      assert buf[..n][s] == buf[s];
      s := s + 1;
    }
    assert s < n ==> buf[..n][s] == buf[s];
  }

  /** peek */
  method PeekAt(buf: array<char>, n: nat, start: nat, toks: seq<char>) returns (found: bool, s: nat)
    requires IsString(buf, n) && start <= n && END !in toks
    ensures s == SkipSpace(buf[..n], start) && (found <==> Peek(buf[..n], start, toks))
  {
    s := SkipSpaces(buf, n, start);
    found := buf[s] != END && StrChr(toks, buf[s]);
    assert s < n ==> buf[..n][s] == buf[s];
  }

  /** gettoken */
  method NextToken(buf: array<char>, n: nat, start: nat) returns (kind: char, q: nat, eq: nat, s: nat)
    requires IsString(buf, n) && start <= n
    ensures GetToken(buf[..n], start) == Token(kind, Word(q, eq), s)
  {
    hide SkipSpace; hide WordEnd;
    ghost var b := buf[..n];
    s := SkipSpaces(buf, n, start);
    q := s;
    kind := buf[s];
    if s < n { assert b[s] == buf[s]; }
    if kind == END {
    } else if kind in "|();&<" {
      s := s + 1;
    } else if kind == '>' {
      s := s + 1;
      assert s < n ==> b[s] == buf[s];
      if buf[s] == '>' {
        kind := '+';
        s := s + 1;
      }
    } else {
      kind := 'a';
      s := SkipWord(buf, n, s);
    }
    eq := s;
    s := SkipSpaces(buf, n, s);
  }

  method SkipWord(buf: array<char>, n: nat, start: nat) returns (s: nat)
    requires IsString(buf, n) && start <= n
    ensures s == WordEnd(buf[..n], start)
  {
    s := start;
    while s < n && !StrChr(WHITESPACE, buf[s]) && !StrChr(SYMBOLS, buf[s])
      invariant start <= s <= n && WordEnd(buf[..n], s) == WordEnd(buf[..n], start)
      decreases n - s
    {
      assert buf[..n][s] == buf[s];
      s := s + 1;
    }
    assert s < n ==> buf[..n][s] == buf[s];
  }

  /** parseredirs: the redirections are collected, the first one innermost. */
  method Redirections(buf: array<char>, n: nat, start: nat, before: seq<Redirection>)
            returns (ok: bool, rs: seq<Redirection>, s: nat)
    requires IsString(buf, n) && start <= n && RedirsWordsOk(buf[..n], before)
    ensures s <= n
    ensures ParseRedirs(buf[..n], start, before) == if ok then RedirsOk(rs, s) else RedirsPanic
  {
    hide GetToken; hide SkipSpace; hide Peek;
    rs := before;
    s := start;
    ok := true;
    var found;
    ghost var b := buf[..n];
    while true
      invariant s <= n && ok && RedirsWordsOk(b, rs) && ParseRedirs(b, start, before) == ParseRedirs(b, s, rs)
      decreases n - s
    {
      ghost var s0 := s;
      found, s := PeekAt(buf, n, s, "<>");
      if !found {
        return;
      }
      var tok, q, eq;
      SkipTwice(b, s0);
      tok, q, eq, s := NextToken(buf, n, s);
      var kind;
      kind, q, eq, s := NextToken(buf, n, s);
      if kind != 'a' {
        ok := false;
        return;
      }
      rs := rs + [Redirection(Word(q, eq), ModeOf(tok), FdOf(tok))];
    }
  }

  /** Skipping spaces again changes nothing. */
  lemma SkipTwice(b: seq<char>, i: nat)
    requires i <= |b|
    ensures var j := SkipSpace(b, i);
      SkipSpace(b, j) == j && GetToken(b, j) == GetToken(b, i) &&
        (forall toks :: Peek(b, j, toks) <==> Peek(b, i, toks))
  {
  }

  /** What peek has seen, gettoken takes. */
  lemma TokenAdvances(b: seq<char>, i: nat, toks: seq<char>)
    requires i <= |b| && END !in b
    ensures Peek(b, i, toks) ==> GetToken(b, i).kind != END && GetToken(b, i).next > i
  {
  }

  lemma NoNuls(buf: array<char>, n: nat)
    requires IsString(buf, n)
    ensures END !in buf[..n]
  {
  }

  method Line(buf: array<char>, n: nat, start: nat) returns (ok: bool, c: Cmd, s: nat)
    requires IsString(buf, n) && start <= n
    ensures s <= n && ParseLine(buf[..n], start) == if ok then Ok(c, s) else Panic
    decreases n - start, 3
  {
    hide GetToken; hide SkipSpace; hide Peek; hide ParsePipe; hide WordsOk; hide ParseBacks;
    var found;
    ghost var b := buf[..n];
    NoNuls(buf, n);
    ok, c, s := PipeLine(buf, n, start);
    if !ok {
      return;
    }
    c, s := Backs(buf, n, s, c);
    SkipTwice(b, s);
    TokenAdvances(b, s, ";");
    found, s := PeekAt(buf, n, s, ";");
    if found {
      var tok, q, eq;
      tok, q, eq, s := NextToken(buf, n, s);
      var d;
      ok, d, s := Line(buf, n, s);
      c := List(c, d);
    }
  }

  /** The loop of parseline. */
  method Backs(buf: array<char>, n: nat, start: nat, before: Cmd) returns (c: Cmd, s: nat)
    requires IsString(buf, n) && start <= n && WordsOk(buf[..n], before)
    ensures s <= n && ParseBacks(buf[..n], start, before) == Ok(c, s)
  {
    hide GetToken; hide SkipSpace; hide Peek; hide WordsOk;
    ghost var b := buf[..n];
    c, s := before, start;
    var found;
    BackWords(b, c);
    NoNuls(buf, n);
    SkipTwice(b, s);
    found, s := PeekAt(buf, n, s, "&");
    while found
      invariant s <= n && WordsOk(b, Back(c)) && WordsOk(b, c) && s == SkipSpace(b, s) && (found <==> Peek(b, s, "&"))
      invariant ParseBacks(b, start, before) == ParseBacks(b, s, c)
      decreases n - s
    {
      var tok, q, eq;
      TokenAdvances(b, s, "&");
      tok, q, eq, s := NextToken(buf, n, s);
      c := Back(c);
      BackWords(b, c);
      SkipTwice(b, s);
      found, s := PeekAt(buf, n, s, "&");
    }
  }

  lemma BackWords(b: seq<char>, c: Cmd)
    ensures WordsOk(b, Back(c)) == WordsOk(b, c)
  {
  }

  method PipeLine(buf: array<char>, n: nat, start: nat) returns (ok: bool, c: Cmd, s: nat)
    requires IsString(buf, n) && start <= n
    ensures s <= n && ParsePipe(buf[..n], start) == if ok then Ok(c, s) else Panic
    decreases n - start, 2
  {
    var found;
    ok, c, s := Simple(buf, n, start);
    if !ok {
      return;
    }
    SkipTwice(buf[..n], s);
    found, s := PeekAt(buf, n, s, "|");
    if found {
      var tok, q, eq;
      tok, q, eq, s := NextToken(buf, n, s);
      var d;
      ok, d, s := PipeLine(buf, n, s);
      c := Pipe(c, d);
    }
  }

  /** parseblock */
  method Block(buf: array<char>, n: nat, start: nat) returns (ok: bool, c: Cmd, s: nat)
    requires IsString(buf, n) && start <= n && Peek(buf[..n], start, "(")
    ensures s <= n && ParseBlock(buf[..n], start) == if ok then Ok(c, s) else Panic
    decreases n - start, 0
  {
    hide GetToken; hide SkipSpace; hide Peek; hide ParseLine; hide ParseRedirs; hide WordsOk; hide Wrap;
    var found, tok, q, eq;
    SkipTwice(buf[..n], start);
    NoNuls(buf, n);
    TokenAdvances(buf[..n], start, "(");
    found, s := PeekAt(buf, n, start, "(");
    if !found {
      ok, c := false, Exec([]);
      return;
    }
    tok, q, eq, s := NextToken(buf, n, s);
    ok, c, s := Line(buf, n, s);
    if !ok {
      return;
    }
    SkipTwice(buf[..n], s);
    found, s := PeekAt(buf, n, s, ")");
    if !found {
      ok := false;
      return;
    }
    tok, q, eq, s := NextToken(buf, n, s);
    var rs;
    ok, rs, s := Redirections(buf, n, s, []);
    c := Wrap(c, rs);
  }

  /** parseexec */
  method Simple(buf: array<char>, n: nat, start: nat) returns (ok: bool, c: Cmd, s: nat)
    requires IsString(buf, n) && start <= n
    ensures s <= n && ParseExec(buf[..n], start) == if ok then Ok(c, s) else Panic
    decreases n - start, 1
  {
    hide GetToken; hide SkipSpace; hide Peek; hide ParseRedirs; hide WordsOk; hide Wrap; hide ParseBlock;
    hide WordOk; hide RedirsWordsOk;
    ghost var b := buf[..n];
    var found;
    SkipTwice(b, start);
    found, s := PeekAt(buf, n, start, "(");
    if found {
      ok, c, s := Block(buf, n, s);
      return;
    }
    var rs;
    c := Exec([]);
    NoRedirs(b);
    ok, rs, s := Redirections(buf, n, s, []);
    if !ok {
      return;
    }
    ok, c, s := Arguments(buf, n, s, rs);
  }

  /** The loop of parseexec. */
  method Arguments(buf: array<char>, n: nat, start: nat, before: seq<Redirection>) returns (ok: bool, c: Cmd, s: nat)
    requires IsString(buf, n) && start <= n && RedirsWordsOk(buf[..n], before)
    ensures s <= n && ParseArgs(buf[..n], start, [], before) == if ok then Ok(c, s) else Panic
  {
    hide GetToken; hide SkipSpace; hide Peek; hide ParseRedirs; hide WordsOk; hide Wrap; hide WordOk;
    hide RedirsWordsOk;
    ghost var b := buf[..n];
    var found;
    var args: seq<Word>, rs := [], before;
    ok := true;
    c := Exec([]);
    found, s := PeekArgs(buf, n, start);
    while !found
      invariant s <= n && ok && |args| < MAXARGS && RedirsWordsOk(b, rs)
      invariant forall k :: 0 <= k < |args| ==> WordOk(b, args[k])
      invariant s == SkipSpace(b, s) && (found <==> Peek(b, s, "|)&;"))
      invariant ParseArgs(b, start, [], before) == ParseArgs(b, s, args, rs)
      decreases n - s
    {
      var tok, q, eq;
      tok, q, eq, s := NextToken(buf, n, s);
      if tok == END {
        break;
      }
      if tok != 'a' {
        ok := false;
        return;
      }
      args := args + [Word(q, eq)];
      if |args| >= MAXARGS {
        ok := false;
        return;
      }
      ok, rs, s := Redirections(buf, n, s, rs);
      if !ok {
        return;
      }
      found, s := PeekArgs(buf, n, s);
    }
    c := Wrap(Exec(args), rs);
  }

  lemma NoRedirs(b: seq<char>)
    ensures RedirsWordsOk(b, [])
  {
  }

  /** peek, for the loop of parseexec. */
  method PeekArgs(buf: array<char>, n: nat, start: nat) returns (found: bool, s: nat)
    requires IsString(buf, n) && start <= n
    ensures start <= s <= n && s == SkipSpace(buf[..n], start) == SkipSpace(buf[..n], s) &&
      (found <==> Peek(buf[..n], s, "|)&;"))
    ensures forall args, rs :: ArgsReady(buf[..n], args, rs) ==>
      ParseArgs(buf[..n], start, args, rs) == ParseArgs(buf[..n], s, args, rs)
  {
    SkipTwice(buf[..n], start);
    found, s := PeekAt(buf, n, start, "|)&;");
  }

  ghost predicate ArgsReady(b: seq<char>, args: seq<Word>, rs: seq<Redirection>)
  {
    |args| < MAXARGS && RedirsWordsOk(b, rs) && forall k :: 0 <= k < |args| ==> WordOk(b, args[k])
  }

  // ---------------------------------------------------------------------------------------
  // Terminating the words

  /** The words recorded in a command. */
  function WordsIn(c: Cmd): seq<Word>
  {
    match c
    case Exec(args) => args
    case Redir(x, file, mode, fd) => WordsIn(x) + [file]
    case Pipe(l, r) => WordsIn(l) + WordsIn(r)
    case List(l, r) => WordsIn(l) + WordsIn(r)
    case Back(x) => WordsIn(x)
  }

  lemma {:induction false} WordsInOk(b: seq<char>, c: Cmd)
    requires WordsOk(b, c)
    ensures forall i :: 0 <= i < |WordsIn(c)| ==> WordOk(b, WordsIn(c)[i])
  {
    match c
    case Exec(args) =>
    case Redir(x, file, mode, fd) => WordsInOk(b, x);
    case Pipe(l, r) => WordsInOk(b, l); WordsInOk(b, r);
    case List(l, r) => WordsInOk(b, l); WordsInOk(b, r);
    case Back(x) => WordsInOk(b, x);
  }

  /** The buffer with NUL written behind each of the words. */
  function Terminated(s: seq<char>, ws: seq<Word>): (r: seq<char>)
    ensures |r| == |s|
    ensures forall p :: 0 <= p < |s| ==> (r[p] == s[p] || r[p] == END)
    ensures forall p :: 0 <= p < |s| && (forall i :: 0 <= i < |ws| ==> ws[i].eq != p) ==> r[p] == s[p]
    ensures forall i :: 0 <= i < |ws| && ws[i].eq < |s| ==> r[ws[i].eq] == END
  {
    if ws == [] then s else
      var t := Terminated(s, ws[..|ws| - 1]);
      if ws[|ws| - 1].eq < |s| then t[ws[|ws| - 1].eq := END] else t
  }

  lemma {:induction false} TerminatedTwice(s: seq<char>, ws: seq<Word>, more: seq<Word>)
    ensures Terminated(Terminated(s, ws), more) == Terminated(s, ws + more)
  {
    if more == [] {
      assert ws + more == ws;
    } else {
      TerminatedTwice(s, ws, more[..|more| - 1]);
      assert (ws + more)[..|ws + more| - 1] == ws + more[..|more| - 1];
    }
  }

  /** nulterminate */
  method NulTerminate(buf: array<char>, n: nat, c: Cmd, ghost b: seq<char>)
    requires n < buf.Length && |b| == n && WordsOk(b, c)
    modifies buf
    ensures buf[..] == Terminated(old(buf[..]), WordsIn(c))
  {
    match c {
      case Exec(args) =>
        assert args[..0] == [];
        for i := 0 to |args|
          invariant buf[..] == Terminated(old(buf[..]), args[..i])
        {
          assert WordOk(b, args[i]);
          assert args[..i + 1][..i] == args[..i];
          buf[args[i].eq] := END;
        }
        assert args[..|args|] == args;
      case Redir(x, file, mode, fd) =>
        NulTerminate(buf, n, x, b);
        buf[file.eq] := END;
        assert WordsIn(c)[..|WordsIn(c)| - 1] == WordsIn(x);
      case Pipe(l, r) =>
        NulTerminate(buf, n, l, b);
        NulTerminate(buf, n, r, b);
        TerminatedTwice(old(buf[..]), WordsIn(l), WordsIn(r));
      case List(l, r) =>
        NulTerminate(buf, n, l, b);
        NulTerminate(buf, n, r, b);
        TerminatedTwice(old(buf[..]), WordsIn(l), WordsIn(r));
      case Back(x) =>
        NulTerminate(buf, n, x, b);
    }
  }

  /** The C string that starts at `q` is `w`. */
  ghost predicate StringAt(s: seq<char>, q: nat, w: seq<char>)
  {
    q + |w| < |s| && s[q..q + |w|] == w && s[q + |w|] == END && END !in w
  }

  /** Every NUL falls outside all recorded words, so each of them becomes a C string of its own. */
  lemma WordsSurvive(s: seq<char>, n: nat, c: Cmd)
    requires n < |s| && s[n] == END && (forall k :: 0 <= k < n ==> s[k] != END) && WordsOk(s[..n], c)
    ensures forall i :: 0 <= i < |WordsIn(c)| ==> WordOk(s[..n], WordsIn(c)[i])
    ensures forall i :: 0 <= i < |WordsIn(c)| ==>
      StringAt(Terminated(s, WordsIn(c)), WordsIn(c)[i].q, TextOf(s[..n], WordsIn(c)[i]))
  {
    hide StringAt; hide WordOk; hide WordsOk; hide Terminated; hide WordsIn;
    var b, ws, t := s[..n], WordsIn(c), Terminated(s, WordsIn(c));
    WordsInOk(b, c);
    forall i | 0 <= i < |ws| ensures StringAt(t, ws[i].q, TextOf(b, ws[i])) {
      Untouched(s, b, ws, ws[i]);
      EndHere(b, ws[i]);
      OneString(s, t, n, ws[i]);
    }
  }

  lemma EndHere(b: seq<char>, w: Word)
    requires WordOk(b, w)
    ensures w.eq <= |b|
  {
  }

  /** The characters of a word are not overwritten. */
  lemma Untouched(s: seq<char>, b: seq<char>, ws: seq<Word>, w: Word)
    requires |b| <= |s| && WordOk(b, w) && forall j :: 0 <= j < |ws| ==> WordOk(b, ws[j])
    ensures forall p :: w.q <= p < w.eq ==> Terminated(s, ws)[p] == s[p]
  {
    hide Terminated;
    forall p | w.q <= p < w.eq ensures Terminated(s, ws)[p] == s[p] {
      forall j | 0 <= j < |ws| ensures ws[j].eq != p { NoEndInside(b, ws[j], w, p); }
    }
  }

  lemma OneString(s: seq<char>, t: seq<char>, n: nat, w: Word)
    requires |t| == |s| && n < |s| && (forall k :: 0 <= k < n ==> s[k] != END) && WordOk(s[..n], w)
    requires (forall p :: w.q <= p < w.eq ==> t[p] == s[p]) && t[w.eq] == END
    ensures StringAt(t, w.q, TextOf(s[..n], w))
  {
    assert t[w.q..w.eq] == s[w.q..w.eq] == TextOf(s[..n], w);
  }

  /** No word ends inside another. */
  lemma NoEndInside(b: seq<char>, v: Word, w: Word, p: nat)
    requires WordOk(b, v) && WordOk(b, w) && w.q <= p < w.eq
    ensures v.eq != p
  {
    assert IsWordChar(b[p]);
  }

  /** parsecmd */
  method ParseCommand(buf: array<char>, n: nat) returns (ok: bool, c: Cmd)
    requires IsString(buf, n)
    modifies buf
    ensures ParseCmd(old(buf[..n])) == if ok then Ok(c, n) else Panic
    ensures !ok ==> buf[..] == old(buf[..])
    ensures ok ==> buf[..] == Terminated(old(buf[..]), WordsIn(c)) && |old(buf[..n])| == n
    ensures ok ==> forall i :: 0 <= i < |WordsIn(c)| ==>
      WordOk(old(buf[..n]), WordsIn(c)[i]) && StringAt(buf[..], WordsIn(c)[i].q, TextOf(old(buf[..n]), WordsIn(c)[i]))
  {
    hide ParseLine; hide WordsOk; hide StringAt; hide WordOk; hide Peek; hide SkipSpace;
    ghost var b, s0 := buf[..n], buf[..];
    assert b == s0[..n];
    var s, found;
    ok, c, s := Line(buf, n, 0);
    if !ok {
      return;
    }
    found, s := PeekAt(buf, n, s, "");
    if s != n {
      ok := false;
      return;
    }
    NulTerminate(buf, n, c, b);
    WordsSurvive(s0, n, c);
  }
}
