/** Command trees with their words spelt out, and the trees that parsed commands stand for. */
module ShTrees {
  import opened ShParse

  /** A command tree with its words spelt out. */
  datatype Tree =
    | TExec(args: seq<string>)
    | TRedir(cmd: Tree, file: string, mode: nat, fd: nat)
    | TPipe(left: Tree, right: Tree)
    | TList(left: Tree, right: Tree)
    | TBack(cmd: Tree)

  /** The tree that a parsed command stands for. */
  function Meaning(b: seq<char>, c: Cmd): Tree
    requires WordsOk(b, c)
  {
    match c
    case Exec(args) => TExec(Texts(b, args))
    case Redir(x, file, mode, fd) => TRedir(Meaning(b, x), TextOf(b, file), mode, fd)
    case Pipe(l, r) => TPipe(Meaning(b, l), Meaning(b, r))
    case List(l, r) => TList(Meaning(b, l), Meaning(b, r))
    case Back(x) => TBack(Meaning(b, x))
  }

  function Texts(b: seq<char>, ws: seq<Word>): (r: seq<string>)
    requires forall i :: 0 <= i < |ws| ==> WordOk(b, ws[i])
    ensures |r| == |ws| && forall i :: 0 <= i < |ws| ==> r[i] == TextOf(b, ws[i])
  {
    if ws == [] then [] else Texts(b, ws[..|ws| - 1]) + [TextOf(b, ws[|ws| - 1])]
  }

  datatype RText = RText(file: string, mode: nat, fd: nat)

  function RTexts(b: seq<char>, rs: seq<Redirection>): (r: seq<RText>)
    requires RedirsWordsOk(b, rs)
    ensures |r| == |rs|
  {
    if rs == [] then [] else
      var last := rs[|rs| - 1];
      RTexts(b, rs[..|rs| - 1]) + [RText(TextOf(b, last.file), last.mode, last.fd)]
  }

  function TWrap(t: Tree, rl: seq<RText>): Tree
  {
    if rl == [] then t else
      var last := rl[|rl| - 1];
      TRedir(TWrap(t, rl[..|rl| - 1]), last.file, last.mode, last.fd)
  }

  lemma {:induction false} MeaningWrap(b: seq<char>, c: Cmd, rs: seq<Redirection>)
    requires WordsOk(b, c) && RedirsWordsOk(b, rs)
    ensures WordsOk(b, Wrap(c, rs)) && Meaning(b, Wrap(c, rs)) == TWrap(Meaning(b, c), RTexts(b, rs))
  {
    WrapWordsOk(b, c, rs);
    if rs != [] {
      MeaningWrap(b, c, rs[..|rs| - 1]);
      assert RTexts(b, rs)[..|rs| - 1] == RTexts(b, rs[..|rs| - 1]);
    }
  }

  lemma OneMoreRedir(b: seq<char>, rs: seq<Redirection>, r: Redirection, x: RText)
    requires RedirsWordsOk(b, rs) && WordOk(b, r.file) && ModeOk(r.mode, r.fd) &&
      x == RText(TextOf(b, r.file), r.mode, r.fd)
    ensures RTexts(b, rs + [r]) == RTexts(b, rs) + [x]
  {
    assert (rs + [r])[..|rs|] == rs;
  }

  lemma MeaningExec(b: seq<char>, args: seq<Word>)
    requires |args| < MAXARGS && forall k :: 0 <= k < |args| ==> WordOk(b, args[k])
    ensures Meaning(b, Exec(args)) == TExec(Texts(b, args))
  {
  }

  lemma OneMoreText(b: seq<char>, args: seq<Word>, w: Word, x: string)
    requires (forall k :: 0 <= k < |args| ==> WordOk(b, args[k])) && WordOk(b, w) && TextOf(b, w) == x
    ensures Texts(b, args + [w]) == Texts(b, args) + [x]
  {
    assert (args + [w])[..|args|] == args;
  }
}
