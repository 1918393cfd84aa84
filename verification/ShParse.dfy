/** The shell's parser (user/sh.c) as functions of the line and the cursor.  The line `b` is what lies
    before its terminating NUL; a panic ends the parse. */
module ShParse {

  const WHITESPACE: seq<char> := [' ', '\t', '\r', '\n', 11 as char]
  const SYMBOLS: seq<char> := "<|>&;()"
  const MAXARGS: nat := 10

  const O_RDONLY: nat := 0x000
  const O_WRONLY: nat := 0x001
  const O_CREATE: nat := 0x200
  const O_TRUNC: nat := 0x400

  /** A word of the line: the positions of its first character and of the one after its last. */
  datatype Word = Word(q: nat, eq: nat)

  datatype Cmd =
    | Exec(args: seq<Word>)
    | Redir(cmd: Cmd, file: Word, mode: nat, fd: nat)
    | Pipe(left: Cmd, right: Cmd)
    | List(left: Cmd, right: Cmd)
    | Back(cmd: Cmd)

  datatype Redirection = Redirection(file: Word, mode: nat, fd: nat)

  datatype Parsed = Ok(cmd: Cmd, next: nat) | Panic

  datatype Redirs = RedirsOk(rs: seq<Redirection>, next: nat) | RedirsPanic

  /** What gettoken returns: 'a' stands for a word, '+' for >>, NUL for the end. */
  datatype Token = Token(kind: char, word: Word, next: nat)

  const END: char := '\0'

  predicate IsSpace(c: char)
  {
    c in WHITESPACE
  }

  predicate IsWordChar(c: char)
  {
    c !in WHITESPACE && c !in SYMBOLS
  }

  // ---------------------------------------------------------------------------------------
  // Tokens

  function SkipSpace(b: seq<char>, i: nat): (j: nat)
    requires i <= |b|
    ensures i <= j <= |b| && (j < |b| ==> !IsSpace(b[j])) && forall k :: i <= k < j ==> IsSpace(b[k])
    decreases |b| - i
  {
    if i < |b| && IsSpace(b[i]) then SkipSpace(b, i + 1) else i
  }

  function WordEnd(b: seq<char>, i: nat): (j: nat)
    requires i <= |b|
    ensures i <= j <= |b| && (j < |b| ==> !IsWordChar(b[j])) && forall k :: i <= k < j ==> IsWordChar(b[k])
    decreases |b| - i
  {
    if i < |b| && IsWordChar(b[i]) then WordEnd(b, i + 1) else i
  }

  /** peek: whether the next character that is no space is one of `toks`. */
  predicate Peek(b: seq<char>, i: nat, toks: seq<char>)
    requires i <= |b|
  {
    var j := SkipSpace(b, i);
    j < |b| && b[j] in toks
  }

  /** gettoken */
  function GetToken(b: seq<char>, i: nat): (t: Token)
    requires i <= |b|
    ensures i <= t.word.q <= t.word.eq <= t.next <= |b| && SkipSpace(b, i) == t.word.q
    ensures t.kind != END ==> t.next > SkipSpace(b, i)
    ensures t.kind == 'a' ==> WordOk(b, t.word)
  {
    var q := SkipSpace(b, i);
    if q == |b| then Token(END, Word(q, q), q)
    else
      var (kind, eq) :=
        if b[q] == '>' then (if q + 1 < |b| && b[q + 1] == '>' then ('+', q + 2) else ('>', q + 1))
        else if b[q] in SYMBOLS then (b[q], q + 1)
        else ('a', WordEnd(b, q));
      Token(kind, Word(q, eq), SkipSpace(b, eq))
  }

  /** A word is not empty, holds only word characters, and is followed by something else. */
  predicate WordOk(b: seq<char>, w: Word)
  {
    w.q < w.eq <= |b| && (forall k :: w.q <= k < w.eq ==> IsWordChar(b[k])) && (w.eq < |b| ==> !IsWordChar(b[w.eq]))
  }

  function TextOf(b: seq<char>, w: Word): string
    requires WordOk(b, w)
  {
    b[w.q..w.eq]
  }

  predicate WordsOk(b: seq<char>, c: Cmd)
  {
    match c
    case Exec(args) => |args| < MAXARGS && forall i :: 0 <= i < |args| ==> WordOk(b, args[i])
    case Redir(x, file, mode, fd) => WordsOk(b, x) && WordOk(b, file) && ModeOk(mode, fd)
    case Pipe(l, r) => WordsOk(b, l) && WordsOk(b, r)
    case List(l, r) => WordsOk(b, l) && WordsOk(b, r)
    case Back(x) => WordsOk(b, x)
  }

  /** The modes the parser gives to redirections. */
  predicate ModeOk(mode: nat, fd: nat)
  {
    || (mode == O_RDONLY && fd == 0)
    || (mode == O_WRONLY + O_CREATE + O_TRUNC && fd == 1)
    || (mode == O_WRONLY + O_CREATE && fd == 1)
  }

  predicate RedirsWordsOk(b: seq<char>, rs: seq<Redirection>)
  {
    forall i :: 0 <= i < |rs| ==> WordOk(b, rs[i].file) && ModeOk(rs[i].mode, rs[i].fd)
  }

  function ModeOf(kind: char): nat
  {
    if kind == '<' then O_RDONLY else if kind == '>' then O_WRONLY + O_CREATE + O_TRUNC else O_WRONLY + O_CREATE
  }

  function FdOf(kind: char): nat
  {
    if kind == '<' then 0 else 1
  }

  // ---------------------------------------------------------------------------------------
  // The parser

  /** Redirections around a command, the first one innermost. */
  function Wrap(c: Cmd, rs: seq<Redirection>): Cmd
  {
    if rs == [] then c else
      var last := rs[|rs| - 1];
      Redir(Wrap(c, rs[..|rs| - 1]), last.file, last.mode, last.fd)
  }

  lemma {:induction false} WrapWordsOk(b: seq<char>, c: Cmd, rs: seq<Redirection>)
    requires WordsOk(b, c) && RedirsWordsOk(b, rs)
    ensures WordsOk(b, Wrap(c, rs))
  {
    if rs != [] { WrapWordsOk(b, c, rs[..|rs| - 1]); }
  }

  /** parseredirs: the redirections from the cursor on, after those of `rs`. */
  function ParseRedirs(b: seq<char>, i: nat, rs: seq<Redirection>): (r: Redirs)
    requires i <= |b| && RedirsWordsOk(b, rs)
    ensures r.RedirsOk? ==> i <= r.next <= |b| && RedirsWordsOk(b, r.rs)
    decreases |b| - i
  {
    if Peek(b, i, "<>") then
      var op := GetToken(b, i);
      var file := GetToken(b, op.next);
      if file.kind != 'a' then RedirsPanic
      else ParseRedirs(b, file.next, rs + [Redirection(file.word, ModeOf(op.kind), FdOf(op.kind))])
    else RedirsOk(rs, SkipSpace(b, i))
  }

  /** The loop of parseexec. */
  function ParseArgs(b: seq<char>, i: nat, args: seq<Word>, rs: seq<Redirection>): (r: Parsed)
    requires i <= |b| && |args| < MAXARGS && RedirsWordsOk(b, rs) && forall k :: 0 <= k < |args| ==> WordOk(b, args[k])
    ensures r.Ok? ==> i <= r.next <= |b| && WordsOk(b, r.cmd)
    decreases |b| - i
  {
    var j := SkipSpace(b, i);
    var t := GetToken(b, j);
    WrapWordsOk(b, Exec(args), rs);
    if Peek(b, i, "|)&;") then Ok(Wrap(Exec(args), rs), j)
    else if t.kind == END then Ok(Wrap(Exec(args), rs), t.next)
    else if t.kind != 'a' then Panic
    else if |args| + 1 >= MAXARGS then Panic
    else
      match ParseRedirs(b, t.next, rs)
      case RedirsPanic => Panic
      case RedirsOk(rs', k) => ParseArgs(b, k, args + [t.word], rs')
  }

  function ParseExec(b: seq<char>, i: nat): (r: Parsed)
    requires i <= |b|
    ensures r.Ok? ==> i <= r.next <= |b| && WordsOk(b, r.cmd)
    decreases |b| - i, 1
  {
    if Peek(b, i, "(") then ParseBlock(b, SkipSpace(b, i))
    else
      match ParseRedirs(b, SkipSpace(b, i), [])
      case RedirsPanic => Panic
      case RedirsOk(rs, j) => ParseArgs(b, j, [], rs)
  }

  function ParseBlock(b: seq<char>, i: nat): (r: Parsed)
    requires i <= |b| && Peek(b, i, "(")
    ensures r.Ok? ==> i <= r.next <= |b| && WordsOk(b, r.cmd)
    decreases |b| - i, 0
  {
    match ParseLine(b, GetToken(b, i).next)
    case Panic => Panic
    case Ok(c, j) =>
      if !Peek(b, j, ")") then Panic
      else
        match ParseRedirs(b, GetToken(b, j).next, [])
        case RedirsPanic => Panic
        case RedirsOk(rs, k) =>
          WrapWordsOk(b, c, rs);
          Ok(Wrap(c, rs), k)
  }

  function ParsePipe(b: seq<char>, i: nat): (r: Parsed)
    requires i <= |b|
    ensures r.Ok? ==> i <= r.next <= |b| && WordsOk(b, r.cmd)
    decreases |b| - i, 2
  {
    match ParseExec(b, i)
    case Panic => Panic
    case Ok(c, j) =>
      if Peek(b, j, "|") then
        match ParsePipe(b, GetToken(b, j).next)
        case Panic => Panic
        case Ok(d, k) => Ok(Pipe(c, d), k)
      else Ok(c, SkipSpace(b, j))
  }

  /** The loop of parseline. */
  function ParseBacks(b: seq<char>, i: nat, c: Cmd): (r: Parsed)
    requires i <= |b| && WordsOk(b, c)
    ensures r.Ok? && i <= r.next <= |b| && WordsOk(b, r.cmd)
    decreases |b| - i
  {
    if Peek(b, i, "&") then ParseBacks(b, GetToken(b, i).next, Back(c)) else Ok(c, SkipSpace(b, i))
  }

  function ParseLine(b: seq<char>, i: nat): (r: Parsed)
    requires i <= |b|
    ensures r.Ok? ==> i <= r.next <= |b| && WordsOk(b, r.cmd)
    decreases |b| - i, 3
  {
    match ParsePipe(b, i)
    case Panic => Panic
    case Ok(p, h) =>
      var r := ParseBacks(b, h, p);
      var c, j := r.cmd, r.next;
      if Peek(b, j, ";") then
        match ParseLine(b, GetToken(b, j).next)
        case Panic => Panic
        case Ok(d, k) => Ok(List(c, d), k)
      else Ok(c, SkipSpace(b, j))
  }

  /** parsecmd, before it terminates the words: the whole line must have been parsed. */
  function ParseCmd(b: seq<char>): (r: Parsed)
    ensures r.Ok? ==> r.next == |b| && WordsOk(b, r.cmd)
  {
    match ParseLine(b, 0)
    case Panic => Panic
    case Ok(c, j) => if SkipSpace(b, j) == |b| then Ok(c, |b|) else Panic
  }
}
