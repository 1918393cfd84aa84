/** The round trip through the buffer: the printed form of a command tree, parsed and terminated in
    place by user/sh.c's parser, spells that tree. */
module ShBuffer {
  import opened ShParse
  import opened ShTrees
  import opened ShGrammar
  import opened ShRoundTrip
  import opened Shell

  /** Following the pointers of the parsed command into the buffer, one finds the C strings of `t`. */
  ghost predicate Spells(s: seq<char>, c: Cmd, t: Tree)
  {
    match c
    case Exec(args) => t.TExec? && |t.args| == |args| && forall i :: 0 <= i < |args| ==>
      StringAt(s, args[i].q, t.args[i])
    case Redir(x, file, mode, fd) =>
      t.TRedir? && Spells(s, x, t.cmd) && StringAt(s, file.q, t.file) && t.mode == mode && t.fd == fd
    case Pipe(l, r) => t.TPipe? && Spells(s, l, t.left) && Spells(s, r, t.right)
    case List(l, r) => t.TList? && Spells(s, l, t.left) && Spells(s, r, t.right)
    case Back(x) => t.TBack? && Spells(s, x, t.cmd)
  }

  /** All words stand as C strings in the buffer. */
  ghost predicate AllThere(s: seq<char>, b: seq<char>, ws: seq<Word>)
  {
    forall i :: 0 <= i < |ws| ==> WordOk(b, ws[i]) && StringAt(s, ws[i].q, TextOf(b, ws[i]))
  }

  lemma ThereInParts(s: seq<char>, b: seq<char>, us: seq<Word>, vs: seq<Word>)
    requires AllThere(s, b, us + vs)
    ensures AllThere(s, b, us) && AllThere(s, b, vs)
  {
    forall i | 0 <= i < |us| ensures us[i] == (us + vs)[i] {}
    forall i | 0 <= i < |vs| ensures vs[i] == (us + vs)[|us| + i] {}
  }

  lemma {:induction false} SpellsMeaning(s: seq<char>, b: seq<char>, c: Cmd)
    requires WordsOk(b, c) && AllThere(s, b, WordsIn(c))
    ensures Spells(s, c, Meaning(b, c))
  {
    hide StringAt; hide WordOk;
    match c
    case Exec(args) =>
    case Redir(x, file, mode, fd) =>
      ThereInParts(s, b, WordsIn(x), [file]);
      assert [file][0] == file;
      SpellsMeaning(s, b, x);
    case Pipe(l, r) =>
      ThereInParts(s, b, WordsIn(l), WordsIn(r));
      SpellsMeaning(s, b, l);
      SpellsMeaning(s, b, r);
    case List(l, r) =>
      ThereInParts(s, b, WordsIn(l), WordsIn(r));
      SpellsMeaning(s, b, l);
      SpellsMeaning(s, b, r);
    case Back(x) =>
      SpellsMeaning(s, b, x);
  }

  /** parsecmd on a line that is the printed form of `t`: it succeeds, and the pointers it returns spell
      `t` in the terminated buffer. */
  method ParsePrinted(buf: array<char>, ghost t: Tree) returns (ok: bool, c: Cmd)
    requires TreeOk(t) && buf.Length == |Print(t)| + 1 && buf[..] == Print(t) + [END]
    modifies buf
    ensures ok && WordsOk(Print(t), c) && Meaning(Print(t), c) == t && Spells(buf[..], c, t)
  {
    hide StringAt; hide WordOk; hide TreeOk; hide WordsOk; hide Print; hide ParseCmd; hide Spells; hide Terminated;
    var n := buf.Length - 1;
    ghost var b := Print(t);
    assert buf[..n] == b && buf[n] == END;
    PrintedString(t);
    forall k | 0 <= k < n ensures buf[k] != END { assert buf[k] == b[k]; }
    RoundTrip(t);
    ParsedWords(t);
    ok, c := ParseCommand(buf, n);
    SpellsMeaning(buf[..], b, c);
  }

  /** parsecmd on any line: it succeeds exactly if the grammar derives the line's tokens, and then the pointers
      it returns spell the tree derived in the terminated buffer. */
  method ParseText(buf: array<char>, n: nat) returns (ok: bool, c: Cmd, ghost t: Tree)
    requires IsString(buf, n)
    modifies buf
    ensures ok <==> exists u :: IsLine(Tokens(old(buf[..n])), u)
    ensures ok ==> IsLine(Tokens(old(buf[..n])), t) && Spells(buf[..], c, t)
    ensures !ok ==> buf[..] == old(buf[..])
  {
    hide StringAt; hide WordOk; hide WordsOk; hide ParseCmd; hide Spells; hide Terminated; hide IsLine; hide Tokens;
    ghost var b := buf[..n];
    RefusedOnly(b);
    t := TExec([]);
    ok, c := ParseCommand(buf, n);
    if ok {
      AcceptedWords(b);
      t := Meaning(b, c);
      ParsesGrammar(b, t);
      SpellsMeaning(buf[..], b, c);
    }
  }

  lemma AcceptedWords(b: seq<char>)
    ensures var r := ParseCmd(b); r.Ok? ==> WordsOk(b, r.cmd)
  {
  }

  lemma PrintedString(t: Tree)
    requires TreeOk(t)
    ensures forall k :: 0 <= k < |Print(t)| ==> Print(t)[k] != END
  {
    ToksOk(t, 0);
    NoNul(Toks(t, 0));
  }

  lemma ParsedWords(t: Tree)
    requires TreeOk(t)
    ensures var r := ParseCmd(Print(t)); r.Ok? ==> WordsOk(Print(t), r.cmd)
  {
  }
}
