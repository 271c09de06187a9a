// The command language of user/sh.c: what its parser accepts and returns, and the law that
// parsing undoes printing.
module ShellGrammar {

  const MAXARGS: nat := 10

  // Modes of a redirection: <, > and >>.
  datatype Mode = Read | Truncate | Extend

  // A command over words of type W: strings, or the places of words in the input.
  datatype Cmd<W> =
    | Exec(argv: seq<W>)
    | Redir(cmd: Cmd<W>, file: W, mode: Mode)
    | Pipe(left: Cmd<W>, right: Cmd<W>)
    | Sequence(left: Cmd<W>, right: Cmd<W>)
    | Back(cmd: Cmd<W>)

  type Span = (nat, nat)

  predicate IsSpace(c: char) { c == ' ' || c == '\t' || c == '\r' || c == '\n' || c == 11 as char }
  predicate IsSymbol(c: char) { c == '<' || c == '|' || c == '>' || c == '&' || c == ';' || c == '(' || c == ')' }
  predicate IsWordChar(c: char) { !IsSpace(c) && !IsSymbol(c) }

  // ---- tokens ----

  function Skip(s: string, i: nat): (j: nat)
    requires i <= |s|
    ensures i <= j <= |s| && (j < |s| ==> !IsSpace(s[j])) && forall k :: i <= k < j ==> IsSpace(s[k])
    decreases |s| - i
  {
    if i < |s| && IsSpace(s[i]) then Skip(s, i + 1) else i
  }

  function WordEnd(s: string, i: nat): (j: nat)
    requires i <= |s|
    ensures i <= j <= |s| && (j < |s| ==> !IsWordChar(s[j])) && forall k :: i <= k < j ==> IsWordChar(s[k])
    decreases |s| - i
  {
    if i < |s| && IsWordChar(s[i]) then WordEnd(s, i + 1) else i
  }

  datatype Kind = End | Symbol(c: char) | Extending | Word

  // A token: s[q..eq], with the next one starting at next.
  datatype Token = Token(kind: Kind, q: nat, eq: nat, next: nat)

  function Get(s: string, i: nat): (t: Token)
    requires i <= |s|
    ensures i <= t.q <= t.eq <= t.next <= |s| && (t.kind != End ==> t.q < t.eq) && (t.kind == End ==> t.next == |s|)
    ensures t.kind == Word ==> IsSpan(s, (t.q, t.eq))
  {
    var q := Skip(s, i);
    if q == |s| then Token(End, q, q, q)
    else if s[q] == '>' && q + 1 < |s| && s[q + 1] == '>' then Token(Extending, q, q + 2, Skip(s, q + 2))
    else if IsSymbol(s[q]) then Token(Symbol(s[q]), q, q + 1, Skip(s, q + 1))
    else var eq := WordEnd(s, q); Token(Word, q, eq, Skip(s, eq))
  }

  // A whole word of the input.
  predicate IsSpan(s: string, w: Span) {
    w.0 < w.1 <= |s| && (forall k :: w.0 <= k < w.1 ==> IsWordChar(s[k])) && (w.1 < |s| ==> !IsWordChar(s[w.1]))
  }

  predicate Peek(s: string, i: nat, toks: set<char>)
    requires i <= |s|
  {
    var j := Skip(s, i);
    j < |s| && s[j] in toks
  }

  // ---- the parser as functions ----

  datatype Result = Panic | Ok(cmd: Cmd<Span>, pos: nat)

  datatype Redirection = Redirection(file: Span, mode: Mode)
  datatype RedirResult = RedirPanic | Redirs(list: seq<Redirection>, pos: nat)
  datatype ArgResult = ArgPanic | Args(argv: seq<Span>, redirs: seq<Redirection>, pos: nat)

  function ModeOf(k: Kind): Mode {
    if k == Symbol('<') then Read else if k == Extending then Extend else Truncate
  }

  // The redirections around a command, the last one outermost.
  function Wrap(c: Cmd<Span>, redirs: seq<Redirection>): Cmd<Span> {
    if redirs == [] then c
    else var n := |redirs| - 1; Redir(Wrap(c, redirs[..n]), redirs[n].file, redirs[n].mode)
  }

  function RedirsAt(s: string, i: nat, acc: seq<Redirection>): (r: RedirResult)
    requires i <= |s|
    ensures r.Redirs? ==> i <= r.pos <= |s|
    decreases |s| - i
  {
    if !Peek(s, i, {'<', '>'}) then Redirs(acc, Skip(s, i))
    else
      var t := Get(s, i);
      var f := Get(s, t.next);
      if f.kind != Word then RedirPanic
      else RedirsAt(s, f.next, acc + [Redirection((f.q, f.eq), ModeOf(t.kind))])
  }

  function ArgsAt(s: string, i: nat, argv: seq<Span>, redirs: seq<Redirection>): (r: ArgResult)
    requires i <= |s|
    ensures r.Args? ==> i <= r.pos <= |s|
    decreases |s| - i
  {
    if Peek(s, i, {'|', ')', '&', ';'}) then Args(argv, redirs, Skip(s, i))
    else
      var t := Get(s, i);
      if t.kind == End then Args(argv, redirs, t.next)
      else if t.kind != Word || |argv| + 1 >= MAXARGS then ArgPanic
      else
        match RedirsAt(s, t.next, redirs)
        case RedirPanic => ArgPanic
        case Redirs(more, k) => ArgsAt(s, k, argv + [(t.q, t.eq)], more)
  }

  function BacksAt(s: string, i: nat, c: Cmd<Span>): (r: (Cmd<Span>, nat))
    requires i <= |s|
    ensures i <= r.1 <= |s|
    decreases |s| - i
  {
    if Peek(s, i, {'&'}) then BacksAt(s, Get(s, i).next, Back(c)) else (c, Skip(s, i))
  }

  function LineAt(s: string, i: nat): (r: Result)
    requires i <= |s|
    ensures r.Ok? ==> i <= r.pos <= |s|
    decreases |s| - i, 3
  {
    match PipeAt(s, i)
    case Panic => Panic
    case Ok(c, k) =>
      var (b, m) := BacksAt(s, k, c);
      if !Peek(s, m, {';'}) then Ok(b, m)
      else
        match LineAt(s, Get(s, m).next)
        case Panic => Panic
        case Ok(d, n) => Ok(Sequence(b, d), n)
  }

  function PipeAt(s: string, i: nat): (r: Result)
    requires i <= |s|
    ensures r.Ok? ==> i <= r.pos <= |s|
    decreases |s| - i, 2
  {
    match ExecAt(s, i)
    case Panic => Panic
    case Ok(c, k) =>
      if !Peek(s, k, {'|'}) then Ok(c, Skip(s, k))
      else
        match PipeAt(s, Get(s, k).next)
        case Panic => Panic
        case Ok(d, n) => Ok(Pipe(c, d), n)
  }

  function ExecAt(s: string, i: nat): (r: Result)
    requires i <= |s|
    ensures r.Ok? ==> i <= r.pos <= |s|
    decreases |s| - i, 1
  {
    if Peek(s, i, {'('}) then BlockAt(s, i)
    else
      match RedirsAt(s, i, [])
      case RedirPanic => Panic
      case Redirs(first, k) =>
        match ArgsAt(s, k, [], first)
        case ArgPanic => Panic
        case Args(argv, redirs, n) => Ok(Wrap(Exec(argv), redirs), n)
  }

  function BlockAt(s: string, i: nat): (r: Result)
    requires i <= |s| && Peek(s, i, {'('})
    ensures r.Ok? ==> i <= r.pos <= |s|
    decreases |s| - i, 0
  {
    match LineAt(s, Get(s, i).next)
    case Panic => Panic
    case Ok(c, k) =>
      if !Peek(s, k, {')'}) then Panic
      else
        match RedirsAt(s, Get(s, k).next, [])
        case RedirPanic => Panic
        case Redirs(redirs, n) => Ok(Wrap(c, redirs), n)
  }

  function ParseCmd(s: string): Result {
    match LineAt(s, 0)
    case Panic => Panic
    case Ok(c, k) => if Skip(s, k) == |s| then Ok(c, |s|) else Panic
  }

  // ---- printing ----

  predicate LegalWord(w: string) {
    w != "" && forall k :: 0 <= k < |w| ==> IsWordChar(w[k])
  }

  predicate Legal(c: Cmd<string>) {
    match c
    case Exec(argv) => |argv| < MAXARGS && forall k :: 0 <= k < |argv| ==> LegalWord(argv[k])
    case Redir(d, f, _) => Legal(d) && LegalWord(f)
    case Pipe(l, r) => Legal(l) && Legal(r)
    case Sequence(l, r) => Legal(l) && Legal(r)
    case Back(d) => Legal(d)
  }

  function Join(argv: seq<string>): string {
    if argv == [] then "" else if |argv| == 1 then argv[0] else argv[0] + " " + Join(argv[1..])
  }

  function Arrow(m: Mode): string {
    match m
    case Read => "<"
    case Truncate => ">"
    case Extend => ">>"
  }

  // A command with every part in parentheses.
  function Render(c: Cmd<string>): string {
    match c
    case Exec(argv) => Join(argv)
    case Redir(d, f, m) => "(" + Render(d) + ")" + Arrow(m) + f
    case Pipe(l, r) => "(" + Render(l) + ")|(" + Render(r) + ")"
    case Sequence(l, r) => "(" + Render(l) + ");(" + Render(r) + ")"
    case Back(d) => "(" + Render(d) + ")&"
  }

  // The words at the places a parsed command names.
  function Text(s: string, c: Cmd<Span>): Cmd<string> {
    match c
    case Exec(argv) => Exec(Texts(s, argv))
    case Redir(d, f, m) => Redir(Text(s, d), Slice(s, f), m)
    case Pipe(l, r) => Pipe(Text(s, l), Text(s, r))
    case Sequence(l, r) => Sequence(Text(s, l), Text(s, r))
    case Back(d) => Back(Text(s, d))
  }

  function Slice(s: string, w: Span): string {
    if w.0 <= w.1 <= |s| then s[w.0..w.1] else ""
  }

  function Texts(s: string, argv: seq<Span>): (r: seq<string>)
    ensures |r| == |argv|
  {
    if argv == [] then [] else Texts(s, argv[..|argv| - 1]) + [Slice(s, argv[|argv| - 1])]
  }

  // ---- parsing undoes printing ----

  // t stands at i in s.
  predicate Stands(s: string, i: nat, t: string) {
    i + |t| <= |s| && s[i..i + |t|] == t
  }

  lemma StandsConcat(s: string, i: nat, a: string, b: string)
    requires Stands(s, i, a + b)
    ensures Stands(s, i, a) && Stands(s, i + |a|, b)
  {
    assert s[i..i + |a|] == (a + b)[..|a|];
    assert s[i + |a|..i + |a| + |b|] == (a + b)[|a|..];
  }

  lemma StandsChar(s: string, i: nat, c: char)
    requires Stands(s, i, [c])
    ensures i < |s| && s[i] == c
  {
    assert s[i..i + 1][0] == s[i];
  }

  // The command that stands before j is followed by the end or by a closing parenthesis.
  predicate Closed(s: string, j: nat) {
    j <= |s| && (j < |s| ==> s[j] == ')')
  }

  lemma WordAt(s: string, i: nat, w: string)
    requires Stands(s, i, w) && LegalWord(w) && (i + |w| < |s| ==> !IsWordChar(s[i + |w|]))
    ensures Get(s, i) == Token(Word, i, i + |w|, Skip(s, i + |w|)) && Slice(s, (i, i + |w|)) == w
  {
    forall k | i <= k < i + |w| ensures IsWordChar(s[k]) {
      assert s[i..i + |w|][k - i] == s[k];
    }
    WordEndAt(s, i, i + |w|);
    assert IsWordChar(s[i]);
  }

  lemma {:induction false} WordEndAt(s: string, i: nat, j: nat)
    requires i <= j <= |s| && (forall k :: i <= k < j ==> IsWordChar(s[k])) && (j < |s| ==> !IsWordChar(s[j]))
    ensures WordEnd(s, i) == j
    decreases j - i
  {
    if i < j {
      WordEndAt(s, i + 1, j);
    }
  }

  // Nothing to skip, and none of the tokens looked for.
  lemma Here(s: string, i: nat)
    requires i <= |s| && (i < |s| ==> !IsSpace(s[i]))
    ensures Skip(s, i) == i
    ensures forall toks :: Peek(s, i, toks) <==> i < |s| && s[i] in toks
  {
  }

  lemma SymbolAt(s: string, i: nat, c: char)
    requires Stands(s, i, [c]) && IsSymbol(c) && (c == '>' ==> i + 1 < |s| && s[i + 1] != '>')
    ensures i < |s| && Get(s, i) == Token(Symbol(c), i, i + 1, Skip(s, i + 1))
  {
    StandsChar(s, i, c);
  }

  // No redirection follows.
  lemma NoRedirs(s: string, i: nat, acc: seq<Redirection>)
    requires i <= |s| && (i < |s| ==> !IsSpace(s[i]) && s[i] != '<' && s[i] != '>')
    ensures RedirsAt(s, i, acc) == Redirs(acc, i)
  {
    Here(s, i);
  }

  lemma TextsAppend(s: string, argv: seq<Span>, w: Span)
    ensures Texts(s, argv + [w]) == Texts(s, argv) + [Slice(s, w)]
  {
    assert (argv + [w])[..|argv|] == argv;
  }

  lemma JoinFirst(words: seq<string>)
    requires words != []
    ensures Join(words) == words[0] + (if |words| == 1 then "" else " " + Join(words[1..]))
  {
    if |words| > 1 {
      assert words[0] + " " + Join(words[1..]) == words[0] + (" " + Join(words[1..]));
    } else {
      assert words[0] + "" == words[0];
    }
  }

  lemma JoinWord(s: string, i: nat, words: seq<string>)
    requires words != [] && (forall k :: 0 <= k < |words| ==> LegalWord(words[k])) && Stands(s, i, Join(words))
    ensures i < |s| && IsWordChar(s[i])
  {
    JoinFirst(words);
    StandsConcat(s, i, words[0], if |words| == 1 then "" else " " + Join(words[1..]));
    assert s[i..i + |words[0]|][0] == s[i];
  }

  lemma ArgsStep(s: string, i: nat, argv: seq<Span>, e: nat, n: nat)
    requires i < |s| && IsWordChar(s[i]) && Get(s, i) == Token(Word, i, e, n) && |argv| + 1 < MAXARGS
    requires n <= |s| && RedirsAt(s, n, []) == Redirs([], n)
    ensures ArgsAt(s, i, argv, []) == ArgsAt(s, n, argv + [(i, e)], [])
  {
    hide Get, RedirsAt, Skip;
    Here(s, i);
  }

  lemma ArgsEnd(s: string, i: nat, argv: seq<Span>)
    requires Closed(s, i)
    ensures ArgsAt(s, i, argv, []) == Args(argv, [], i)
  {
    Here(s, i);
  }

  // The first of some words, and where the next one or the end is.
  lemma FirstWord(s: string, i: nat, words: seq<string>) returns (e: nat, n: nat)
    requires words != [] && (forall k :: 0 <= k < |words| ==> LegalWord(words[k]))
    requires Stands(s, i, Join(words)) && Closed(s, i + |Join(words)|)
    ensures i < |s| && IsWordChar(s[i]) && Get(s, i) == Token(Word, i, e, n) && Slice(s, (i, e)) == words[0]
    ensures n <= |s| && RedirsAt(s, n, []) == Redirs([], n)
    ensures Stands(s, n, Join(words[1..])) && n + |Join(words[1..])| == i + |Join(words)|
  {
    hide Get, RedirsAt, Join, Skip;
    var w, rest := words[0], words[1..];
    JoinFirst(words);
    JoinWord(s, i, words);
    StandsConcat(s, i, w, if |words| == 1 then "" else " " + Join(rest));
    e := i + |w|;
    n := if |words| == 1 then e else e + 1;
    if |words| > 1 {
      StandsConcat(s, e, " ", Join(rest));
      StandsChar(s, e, ' ');
      JoinWord(s, n, rest);
    } else {
      assert rest == [];
      JoinNone();
    }
    WordAt(s, i, w);
    NoRedirs(s, n, []);
  }

  lemma JoinNone()
    ensures Join([]) == ""
  {
  }

  // The words of a simple command.
  lemma {:induction false} ArgsOf(s: string, i: nat, words: seq<string>, argv: seq<Span>) returns (all: seq<Span>)
    requires Stands(s, i, Join(words)) && Closed(s, i + |Join(words)|)
    requires |argv| + |words| < MAXARGS && forall k :: 0 <= k < |words| ==> LegalWord(words[k])
    ensures ArgsAt(s, i, argv, []) == Args(all, [], i + |Join(words)|) && Texts(s, all) == Texts(s, argv) + words
    decreases words
  {
    hide *;
    if words == [] {
      JoinNone();
      ArgsEnd(s, i, argv);
      all := argv;
    } else {
      var e, n := FirstWord(s, i, words);
      ArgsStep(s, i, argv, e, n);
      all := ArgsOf(s, n, words[1..], argv + [(i, e)]);
      TextsAppend(s, argv, (i, e));
      assert [words[0]] + words[1..] == words;
    }
  }

  // Where nothing can follow, a line is its first simple command.
  lemma LineIsExec(s: string, i: nat, c: Cmd<Span>, j: nat)
    requires i <= j && Closed(s, j) && ExecAt(s, i) == Ok(c, j)
    ensures PipeAt(s, i) == Ok(c, j) && LineAt(s, i) == Ok(c, j)
  {
    Here(s, j);
  }

  // A printed command does not start with a space.
  lemma NoLeadingSpace(s: string, i: nat, c: Cmd<string>)
    requires Legal(c) && Stands(s, i, Render(c) + ")")
    ensures i < |s| && !IsSpace(s[i]) && (s[i] == '(' || s[i] == ')' || IsWordChar(s[i]))
  {
    var r := Render(c);
    StandsConcat(s, i, r, ")");
    if r == "" {
      StandsChar(s, i, ')');
    } else {
      assert s[i] == s[i..i + |r|][0];
      if c.Exec? {
        JoinWord(s, i, c.argv);
      }
    }
  }

  // A block whose inside has been parsed.
  lemma BlockStep(s: string, i: nat, k: nat, d: Cmd<Span>)
    requires i < k < |s| && s[i] == '(' && s[k] == ')' && !IsSpace(s[i + 1]) && LineAt(s, i + 1) == Ok(d, k)
    ensures ExecAt(s, i) == match RedirsAt(s, Skip(s, k + 1), [])
                            case RedirPanic => Panic
                            case Redirs(rs, n) => Ok(Wrap(d, rs), n)
  {
    hide LineAt, RedirsAt, Wrap, WordEnd;
    Here(s, i);
    Here(s, i + 1);
    Here(s, k);
  }

  // What a parenthesised command parses to, up to the redirections after it.
  lemma {:induction false} BlockOf(s: string, i: nat, c: Cmd<string>) returns (d: Cmd<Span>)
    requires Legal(c) && Stands(s, i, "(" + Render(c) + ")")
    ensures Text(s, d) == c && i + |Render(c)| + 2 <= |s|
    ensures ExecAt(s, i) == match RedirsAt(s, Skip(s, i + |Render(c)| + 2), [])
                            case RedirPanic => Panic
                            case Redirs(rs, n) => Ok(Wrap(d, rs), n)
    decreases c, 6
  {
    hide *;
    var r := Render(c);
    var k := i + 1 + |r|;
    assert "(" + r + ")" == "(" + (r + ")");
    StandsConcat(s, i, "(", r + ")");
    StandsConcat(s, i + 1, r, ")");
    StandsChar(s, k, ')');
    StandsChar(s, i, '(');
    NoLeadingSpace(s, i + 1, c);
    d := LineOf(s, i + 1, c);
    BlockStep(s, i, k, d);
  }

  // Parsing a printed command gives the command back.
  lemma {:induction false} LineOf(s: string, i: nat, c: Cmd<string>) returns (d: Cmd<Span>)
    requires Legal(c) && Stands(s, i, Render(c)) && Closed(s, i + |Render(c)|)
    ensures LineAt(s, i) == Ok(d, i + |Render(c)|) && Text(s, d) == c
    decreases c, 5
  {
    match c
    case Exec(argv) => d := ExecOf(s, i, argv);
    case Redir(e, f, m) => d := RedirOf(s, i, e, f, m);
    case Pipe(l, r) => d := PipeOf(s, i, l, r);
    case Sequence(l, r) => d := SequenceOf(s, i, l, r);
    case Back(e) => d := BackOf(s, i, e);
  }

  lemma ExecOf(s: string, i: nat, argv: seq<string>) returns (d: Cmd<Span>)
    requires Legal(Exec(argv)) && Stands(s, i, Join(argv)) && Closed(s, i + |Join(argv)|)
    ensures LineAt(s, i) == Ok(d, i + |Join(argv)|) && Text(s, d) == Exec(argv)
  {
    hide Stands, Join, LineAt, PipeAt, RedirsAt, ArgsAt, Skip, Get;
    var all := ArgsOf(s, i, argv, []);
    if argv != [] {
      JoinWord(s, i, argv);
    } else {
      JoinNone();
    }
    Here(s, i);
    NoRedirs(s, i, []);
    d := Exec(all);
    assert Texts(s, []) + argv == argv;
    LineIsExec(s, i, d, i + |Join(argv)|);
  }

  lemma RedirOf(s: string, i: nat, c: Cmd<string>, f: string, m: Mode) returns (d: Cmd<Span>)
    requires Legal(Redir(c, f, m)) && Stands(s, i, Render(Redir(c, f, m))) && Closed(s, i + |Render(Redir(c, f, m))|)
    ensures LineAt(s, i) == Ok(d, i + |Render(Redir(c, f, m))|) && Text(s, d) == Redir(c, f, m)
    decreases Redir(c, f, m), 4
  {
    hide Stands, LineAt, PipeAt, ExecAt, RedirsAt, ArgsAt, Skip, Get, Join;
    var b := "(" + Render(c) + ")";
    assert Render(Redir(c, f, m)) == b + (Arrow(m) + f);
    StandsConcat(s, i, b, Arrow(m) + f);
    var j := i + |b|;
    var e := BlockOf(s, i, c);
    var w := OneRedir(s, j, f, m);
    d := Redir(e, w, m);
    assert Wrap(e, [Redirection(w, m)]) == Redir(Wrap(e, []), w, m);
    LineIsExec(s, i, d, j + |Arrow(m) + f|);
  }

  // One redirection, at the end.
  lemma OneRedir(s: string, j: nat, f: string, m: Mode) returns (w: Span)
    requires LegalWord(f) && Stands(s, j, Arrow(m) + f) && Closed(s, j + |Arrow(m) + f|)
    ensures j <= |s| && RedirsAt(s, Skip(s, j), []) == Redirs([Redirection(w, m)], j + |Arrow(m) + f|)
      && Slice(s, w) == f
  {
    hide WordEnd, RedirsAt, Get, Peek, Slice;
    StandsConcat(s, j, Arrow(m), f);
    var k := j + |Arrow(m)|;
    var e := k + |f|;
    StandsFirst(s, j, Arrow(m));
    StandsFirst(s, k, f);
    WordAt(s, k, f);
    w := (k, e);
    Here(s, j);
    Here(s, k);
    Here(s, e);
    NoRedirs(s, e, [Redirection(w, m)]);
    RedirStep(s, j, k, e, m);
  }

  lemma StandsFirst(s: string, i: nat, t: string)
    requires Stands(s, i, t) && t != ""
    ensures i < |s| && s[i] == t[0] && (|t| > 1 ==> i + 1 < |s| && s[i + 1] == t[1])
  {
    assert s[i..i + |t|][0] == s[i];
    assert |t| > 1 ==> s[i..i + |t|][1] == s[i + 1];
  }

  lemma RedirStep(s: string, j: nat, k: nat, e: nat, m: Mode)
    requires k == j + |Arrow(m)| && k < e <= |s| && s[j] == Arrow(m)[0] && (m == Extend ==> s[j + 1] == '>')
    requires IsWordChar(s[k]) && Get(s, k) == Token(Word, k, e, e)
    ensures RedirsAt(s, j, []) == RedirsAt(s, e, [Redirection((k, e), m)])
  {
    hide WordEnd;
    Here(s, j);
    Here(s, k);
    assert Get(s, j).next == k && ModeOf(Get(s, j).kind) == m;
    assert [] + [Redirection((k, e), m)] == [Redirection((k, e), m)];
  }

  // A parenthesised command with something else than a redirection after it.
  lemma PlainBlock(s: string, i: nat, c: Cmd<string>) returns (d: Cmd<Span>)
    requires Legal(c) && Stands(s, i, "(" + Render(c) + ")")
    requires var j := i + |Render(c)| + 2; j < |s| ==> !IsSpace(s[j]) && s[j] != '<' && s[j] != '>'
    ensures ExecAt(s, i) == Ok(d, i + |Render(c)| + 2) && Text(s, d) == c && i + |Render(c)| + 2 <= |s|
    decreases c, 7
  {
    hide Stands, LineAt, ExecAt, RedirsAt, Skip, Render, Legal, Text;
    d := BlockOf(s, i, c);
    var j := i + |Render(c)| + 2;
    Here(s, j);
    NoRedirs(s, j, []);
  }

  // Two parenthesised commands with a symbol between them.
  lemma TwoBlocks(s: string, i: nat, l: Cmd<string>, r: Cmd<string>, c: char) returns (a: Cmd<Span>, b: Cmd<Span>,
      j: nat)
    requires Legal(l) && Legal(r) && (c == '|' || c == ';')
    requires Stands(s, i, "(" + Render(l) + ")" + [c] + "(" + Render(r) + ")")
    requires Closed(s, i + |Render(l)| + |Render(r)| + 5)
    ensures var n := i + |Render(l)| + |Render(r)| + 5;
      && i < j < n <= |s| && s[j] == c && ExecAt(s, i) == Ok(a, j) && Text(s, a) == l
      && Get(s, j) == Token(Symbol(c), j, j + 1, j + 1)
      && LineAt(s, j + 1) == Ok(b, n) && PipeAt(s, j + 1) == Ok(b, n) && Text(s, b) == r
    decreases if c == '|' then Pipe(l, r) else Sequence(l, r), 3
  {
    hide Stands, LineAt, PipeAt, ExecAt, RedirsAt, Render, Legal, Text, Get, Skip, Peek;
    j := TwoStand(s, i, Render(l), Render(r), c);
    SymbolAt(s, j, c);
    a := PlainBlock(s, i, l);
    b := PlainBlock(s, j + 1, r);
    LineIsExec(s, j + 1, b, j + |Render(r)| + 3);
  }

  // Where the parts of "(x)c(y)" stand.
  lemma TwoStand(s: string, i: nat, x: string, y: string, c: char) returns (j: nat)
    requires Stands(s, i, "(" + x + ")" + [c] + "(" + y + ")") && (c == '|' || c == ';')
    ensures j == i + |x| + 2 && j + 1 < |s| && s[j] == c && s[j + 1] == '(' && !IsSpace(s[j + 1])
    ensures Stands(s, i, "(" + x + ")") && Stands(s, j, [c]) && Stands(s, j + 1, "(" + y + ")")
  {
    hide Stands;
    var u, v := "(" + x + ")", "(" + y + ")";
    assert u + [c] + "(" + y + ")" == u + ([c] + v);
    StandsConcat(s, i, u, [c] + v);
    j := i + |u|;
    StandsConcat(s, j, [c], v);
    StandsChar(s, j, c);
    StandsFirst(s, j + 1, v);
  }

  lemma PipeOf(s: string, i: nat, l: Cmd<string>, r: Cmd<string>) returns (d: Cmd<Span>)
    requires Legal(l) && Legal(r) && Stands(s, i, Render(Pipe(l, r))) && Closed(s, i + |Render(Pipe(l, r))|)
    ensures LineAt(s, i) == Ok(d, i + |Render(Pipe(l, r))|) && Text(s, d) == Pipe(l, r)
    decreases Pipe(l, r), 4
  {
    hide Stands, ExecAt, Get, Legal, Skip;
    assert ")|(" == ")" + ['|'] + "(";
    assert Render(Pipe(l, r)) == "(" + Render(l) + ")" + ['|'] + "(" + Render(r) + ")";
    var a, b, j := TwoBlocks(s, i, l, r, '|');
    d := Pipe(a, b);
    Here(s, j);
    Here(s, i + |Render(Pipe(l, r))|);
  }

  lemma SequenceOf(s: string, i: nat, l: Cmd<string>, r: Cmd<string>) returns (d: Cmd<Span>)
    requires Legal(l) && Legal(r) && Stands(s, i, Render(Sequence(l, r))) && Closed(s, i + |Render(Sequence(l, r))|)
    ensures LineAt(s, i) == Ok(d, i + |Render(Sequence(l, r))|) && Text(s, d) == Sequence(l, r)
    decreases Sequence(l, r), 4
  {
    hide Stands, ExecAt, Get, Legal, Skip;
    assert ");(" == ")" + [';'] + "(";
    assert Render(Sequence(l, r)) == "(" + Render(l) + ")" + [';'] + "(" + Render(r) + ")";
    var a, b, j := TwoBlocks(s, i, l, r, ';');
    d := Sequence(a, b);
    Here(s, j);
  }

  lemma BackOf(s: string, i: nat, c: Cmd<string>) returns (d: Cmd<Span>)
    requires Legal(c) && Stands(s, i, Render(Back(c))) && Closed(s, i + |Render(Back(c))|)
    ensures LineAt(s, i) == Ok(d, i + |Render(Back(c))|) && Text(s, d) == Back(c)
    decreases Back(c), 4
  {
    hide Stands, ExecAt, Legal, RedirsAt, Get, Skip;
    var x := "(" + Render(c) + ")";
    assert ")&" == ")" + "&";
    assert Render(Back(c)) == x + "&";
    StandsConcat(s, i, x, "&");
    var j := i + |x|;
    StandsChar(s, j, '&');
    SymbolAt(s, j, '&');
    var e := PlainBlock(s, i, c);
    d := Back(e);
    Here(s, j);
    Here(s, j + 1);
    assert BacksAt(s, j + 1, d) == (d, j + 1);
  }

  // Parsing the printed form of a command whose words are legal and whose simple commands
  // have fewer than 10 words gives the command back.
  lemma RoundTrip(c: Cmd<string>)
    requires Legal(c)
    ensures ParseCmd(Render(c)).Ok? && Text(Render(c), ParseCmd(Render(c)).cmd) == c
  {
    hide LineAt, Text, Legal, Render;
    var s := Render(c);
    assert s[0..0 + |s|] == s;
    var d := LineOf(s, 0, c);
  }

  // ---- printing what was parsed ----

  // The words of a command are whole words of the input, and few enough.
  predicate Whole(s: string, c: Cmd<Span>) {
    match c
    case Exec(argv) => |argv| < MAXARGS && AllSpans(s, argv)
    case Redir(d, f, _) => Whole(s, d) && IsSpan(s, f)
    case Pipe(l, r) => Whole(s, l) && Whole(s, r)
    case Sequence(l, r) => Whole(s, l) && Whole(s, r)
    case Back(d) => Whole(s, d)
  }

  predicate AllSpans(s: string, argv: seq<Span>) {
    forall k :: 0 <= k < |argv| ==> IsSpan(s, argv[k])
  }

  predicate AllFiles(s: string, redirs: seq<Redirection>) {
    forall k :: 0 <= k < |redirs| ==> IsSpan(s, redirs[k].file)
  }

  lemma {:induction false} RedirsWhole(s: string, i: nat, acc: seq<Redirection>)
    requires i <= |s| && AllFiles(s, acc)
    ensures RedirsAt(s, i, acc).Redirs? ==> AllFiles(s, RedirsAt(s, i, acc).list)
    decreases |s| - i
  {
    hide Skip, IsSpan;
    if Peek(s, i, {'<', '>'}) {
      var t := Get(s, i);
      var f := Get(s, t.next);
      if f.kind == Word {
        RedirsWhole(s, f.next, acc + [Redirection((f.q, f.eq), ModeOf(t.kind))]);
      }
    }
  }

  lemma {:induction false} ArgsWhole(s: string, i: nat, argv: seq<Span>, redirs: seq<Redirection>)
    requires i <= |s| && |argv| < MAXARGS && AllSpans(s, argv) && AllFiles(s, redirs)
    ensures var r := ArgsAt(s, i, argv, redirs); r.Args? ==>
      |r.argv| < MAXARGS && AllSpans(s, r.argv) && AllFiles(s, r.redirs)
    decreases |s| - i
  {
    hide Skip, IsSpan, RedirsAt;
    var t := Get(s, i);
    if !Peek(s, i, {'|', ')', '&', ';'}) && t.kind == Word && |argv| + 1 < MAXARGS {
      RedirsWhole(s, t.next, redirs);
      var more := RedirsAt(s, t.next, redirs);
      if more.Redirs? {
        ArgsWhole(s, more.pos, argv + [(t.q, t.eq)], more.list);
      }
    }
  }

  lemma {:induction false} BacksWhole(s: string, i: nat, c: Cmd<Span>)
    requires i <= |s| && Whole(s, c)
    ensures Whole(s, BacksAt(s, i, c).0)
    decreases |s| - i
  {
    hide Skip;
    if Peek(s, i, {'&'}) {
      BacksWhole(s, Get(s, i).next, Back(c));
    }
  }

  lemma {:induction false} WrapWhole(s: string, c: Cmd<Span>, redirs: seq<Redirection>)
    requires Whole(s, c) && AllFiles(s, redirs)
    ensures Whole(s, Wrap(c, redirs))
  {
    if redirs != [] {
      WrapWhole(s, c, redirs[..|redirs| - 1]);
    }
  }

  lemma {:induction false} LineWhole(s: string, i: nat)
    requires i <= |s|
    ensures LineAt(s, i).Ok? ==> Whole(s, LineAt(s, i).cmd)
    decreases |s| - i, 3
  {
    hide PipeAt, BacksAt, Skip;
    PipeWhole(s, i);
    var first := PipeAt(s, i);
    if first.Ok? {
      BacksWhole(s, first.pos, first.cmd);
      var m := BacksAt(s, first.pos, first.cmd).1;
      if Peek(s, m, {';'}) {
        LineWhole(s, Get(s, m).next);
      }
    }
  }

  lemma {:induction false} PipeWhole(s: string, i: nat)
    requires i <= |s|
    ensures PipeAt(s, i).Ok? ==> Whole(s, PipeAt(s, i).cmd)
    decreases |s| - i, 2
  {
    hide ExecAt, Skip;
    ExecWhole(s, i);
    var first := ExecAt(s, i);
    if first.Ok? && Peek(s, first.pos, {'|'}) {
      PipeWhole(s, Get(s, first.pos).next);
    }
  }

  lemma {:induction false} ExecWhole(s: string, i: nat)
    requires i <= |s|
    ensures ExecAt(s, i).Ok? ==> Whole(s, ExecAt(s, i).cmd)
    decreases |s| - i, 1
  {
    hide LineAt, RedirsAt, ArgsAt, Skip, Wrap;
    if Peek(s, i, {'('}) {
      BlockWhole(s, i);
    } else {
      RedirsWhole(s, i, []);
      var first := RedirsAt(s, i, []);
      if first.Redirs? {
        ArgsWhole(s, first.pos, [], first.list);
        var args := ArgsAt(s, first.pos, [], first.list);
        if args.Args? {
          WrapWhole(s, Exec(args.argv), args.redirs);
        }
      }
    }
  }

  lemma {:induction false} BlockWhole(s: string, i: nat)
    requires i <= |s| && Peek(s, i, {'('})
    ensures BlockAt(s, i).Ok? ==> Whole(s, BlockAt(s, i).cmd)
    decreases |s| - i, 0
  {
    hide LineAt, RedirsAt, Skip, Wrap;
    LineWhole(s, Get(s, i).next);
    var inner := LineAt(s, Get(s, i).next);
    if inner.Ok? && Peek(s, inner.pos, {')'}) {
      RedirsWhole(s, Get(s, inner.pos).next, []);
      var redirs := RedirsAt(s, Get(s, inner.pos).next, []);
      if redirs.Redirs? {
        WrapWhole(s, inner.cmd, redirs.list);
      }
    }
  }

  lemma {:induction false} WholeLegal(s: string, c: Cmd<Span>)
    requires Whole(s, c)
    ensures Legal(Text(s, c))
  {
    match c
    case Exec(argv) => TextsLegal(s, argv);
    case Redir(d, f, _) => WholeLegal(s, d);
    case Pipe(l, r) =>
      WholeLegal(s, l);
      WholeLegal(s, r);
    case Sequence(l, r) =>
      WholeLegal(s, l);
      WholeLegal(s, r);
    case Back(d) => WholeLegal(s, d);
  }

  lemma {:induction false} TextsLegal(s: string, argv: seq<Span>)
    requires AllSpans(s, argv)
    ensures forall k :: 0 <= k < |argv| ==> LegalWord(Texts(s, argv)[k])
  {
    if argv != [] {
      TextsLegal(s, argv[..|argv| - 1]);
    }
  }

  // So every line the parser accepts means a legal command, and printing that command and
  // parsing it again gives the same one.
  lemma ParsedPrints(s: string)
    requires ParseCmd(s).Ok?
    ensures var c := Text(s, ParseCmd(s).cmd);
      Legal(c) && ParseCmd(Render(c)).Ok? && Text(Render(c), ParseCmd(Render(c)).cmd) == c
  {
    hide LineAt, Text, Legal, Render;
    LineWhole(s, 0);
    WholeLegal(s, ParseCmd(s).cmd);
    RoundTrip(Text(s, ParseCmd(s).cmd));
  }
}
