// The recursive-descent parser of user/sh.c.  Each method moves the cursor through the
// input as the source does, and is proved against the grammar.
module ShellParser {
  import opened ShellGrammar

  // ---- words ----

  // The places of the words of a command.
  function Spans(c: Cmd<Span>): set<Span> {
    match c
    case Exec(argv) => set w | w in argv
    case Redir(d, f, _) => Spans(d) + {f}
    case Pipe(l, r) => Spans(l) + Spans(r)
    case Sequence(l, r) => Spans(l) + Spans(r)
    case Back(d) => Spans(d)
  }

  ghost predicate SpansOk(s: string, c: Cmd<Span>) {
    forall w :: w in Spans(c) ==> IsSpan(s, w)
  }

  lemma {:induction false} WrapOk(s: string, c: Cmd<Span>, redirs: seq<Redirection>)
    requires SpansOk(s, c) && AllFiles(s, redirs)
    ensures SpansOk(s, Wrap(c, redirs))
  {
    if redirs != [] {
      WrapOk(s, c, redirs[..|redirs| - 1]);
    }
  }

  // ---- tokens ----

  method SkipSpace(s: string, i: nat) returns (j: nat)
    requires i <= |s|
    ensures j == Skip(s, i)
  {
    j := i;
    while j < |s| && IsSpace(s[j])
      invariant i <= j <= |s| && Skip(s, i) == Skip(s, j)
    {
      j := j + 1;
    }
  }

  method GetToken(s: string, i: nat) returns (t: Token)
    requires i <= |s|
    ensures t == Get(s, i)
  {
    hide Skip;
    var q := SkipSpace(s, i);
    if q == |s| {
      return Token(End, q, q, q);
    }
    var j := q;
    var kind;
    match s[q] {
      case '|' => kind, j := Symbol('|'), j + 1;
      case '(' => kind, j := Symbol('('), j + 1;
      case ')' => kind, j := Symbol(')'), j + 1;
      case ';' => kind, j := Symbol(';'), j + 1;
      case '&' => kind, j := Symbol('&'), j + 1;
      case '<' => kind, j := Symbol('<'), j + 1;
      case '>' =>
        kind, j := Symbol('>'), j + 1;
        if j < |s| && s[j] == '>' {
          kind, j := Extending, j + 1;
        }
      case _ =>
        kind := Word;
        while j < |s| && !IsSpace(s[j]) && !IsSymbol(s[j])
          invariant q <= j <= |s| && WordEnd(s, q) == WordEnd(s, j)
        {
          j := j + 1;
        }
    }
    var next := SkipSpace(s, j);
    return Token(kind, q, j, next);
  }

  method PeekAt(s: string, i: nat, toks: set<char>) returns (j: nat, found: bool)
    requires i <= |s|
    ensures j == Skip(s, i) && found == Peek(s, i, toks)
  {
    j := SkipSpace(s, i);
    found := j < |s| && s[j] in toks;
  }

  // Skipping twice is skipping once.
  lemma SkipTwice(s: string, i: nat)
    requires i <= |s|
    ensures Skip(s, Skip(s, i)) == Skip(s, i) && Get(s, Skip(s, i)) == Get(s, i)
    ensures forall toks :: Peek(s, Skip(s, i), toks) == Peek(s, i, toks)
  {
  }

  // ---- commands ----

  method ParseRedirs(s: string, i: nat, before: seq<Redirection>) returns (r: RedirResult)
    requires i <= |s| && AllFiles(s, before)
    ensures r == RedirsAt(s, i, before) && (r.Redirs? ==> AllFiles(s, r.list))
  {
    var redirs, j := before, i;
    while true
      invariant i <= j <= |s| && RedirsAt(s, i, before) == RedirsAt(s, j, redirs) && AllFiles(s, redirs)
      decreases |s| - j
    {
      var k, more := PeekAt(s, j, {'<', '>'});
      if !more {
        return Redirs(redirs, k);
      }
      SkipTwice(s, j);
      var tok := GetToken(s, k);
      var file := GetToken(s, tok.next);
      if file.kind != Word {
        return RedirPanic;
      }
      redirs := redirs + [Redirection((file.q, file.eq), ModeOf(tok.kind))];
      j := file.next;
    }
  }

  method ParseExec(s: string, i: nat) returns (r: Result)
    requires i <= |s|
    ensures r == ExecAt(s, i) && (r.Ok? ==> SpansOk(s, r.cmd))
    decreases |s| - i, 1
  {
    hide LineAt, PipeAt, BlockAt, RedirsAt, ArgsAt, Skip, Get, Wrap, IsSpan, SpansOk;
    SkipTwice(s, i);
    var j, open := PeekAt(s, i, {'('});
    if open {
      r := ParseBlock(s, i);
      return;
    }
    var first := ParseRedirs(s, i, []);
    if first.RedirPanic? {
      return Panic;
    }
    var args := ParseArgs(s, first.pos, first.list);
    if args.ArgPanic? {
      return Panic;
    }
    ExecSpans(s, args.argv);
    WrapOk(s, Exec(args.argv), args.redirs);
    return Ok(Wrap(Exec(args.argv), args.redirs), args.pos);
  }

  lemma ExecSpans(s: string, argv: seq<Span>)
    requires AllSpans(s, argv)
    ensures SpansOk(s, Exec(argv))
  {
  }

  // The loop of parseexec.
  method ParseArgs(s: string, i: nat, before: seq<Redirection>) returns (r: ArgResult)
    requires i <= |s| && AllFiles(s, before)
    ensures r == ArgsAt(s, i, [], before) && (r.Args? ==> AllSpans(s, r.argv) && AllFiles(s, r.redirs))
  {
    var argv, redirs, j := [], before, i;
    while true
      invariant i <= j <= |s| && ArgsAt(s, i, [], before) == ArgsAt(s, j, argv, redirs)
      invariant AllSpans(s, argv) && AllFiles(s, redirs)
      decreases |s| - j
    {
      var k, stop := PeekAt(s, j, {'|', ')', '&', ';'});
      if stop {
        return Args(argv, redirs, k);
      }
      SkipTwice(s, j);
      var tok := GetToken(s, k);
      if tok.kind == End {
        return Args(argv, redirs, tok.next);
      }
      if tok.kind != Word {
        return ArgPanic;
      }
      argv := argv + [(tok.q, tok.eq)];
      if |argv| >= MAXARGS {
        return ArgPanic;
      }
      var more := ParseRedirs(s, tok.next, redirs);
      if more.RedirPanic? {
        return ArgPanic;
      }
      redirs, j := more.list, more.pos;
    }
  }

  method ParseBlock(s: string, i: nat) returns (r: Result)
    requires i <= |s| && Peek(s, i, {'('})
    ensures r == BlockAt(s, i) && (r.Ok? ==> SpansOk(s, r.cmd))
    decreases |s| - i, 0
  {
    hide LineAt, RedirsAt, Skip, Wrap, SpansOk, IsSpan;
    var open := GetToken(s, i);
    var inner := ParseLine(s, open.next);
    if inner.Panic? {
      return Panic;
    }
    SkipTwice(s, inner.pos);
    var k, close := PeekAt(s, inner.pos, {')'});
    if !close {
      return Panic;
    }
    var tok := GetToken(s, k);
    var redirs := ParseRedirs(s, tok.next, []);
    if redirs.RedirPanic? {
      return Panic;
    }
    WrapOk(s, inner.cmd, redirs.list);
    return Ok(Wrap(inner.cmd, redirs.list), redirs.pos);
  }

  method ParsePipe(s: string, i: nat) returns (r: Result)
    requires i <= |s|
    ensures r == PipeAt(s, i) && (r.Ok? ==> SpansOk(s, r.cmd))
    decreases |s| - i, 2
  {
    hide ExecAt, IsSpan;
    r := ParseExec(s, i);
    if r.Panic? {
      return;
    }
    SkipTwice(s, r.pos);
    var k, bar := PeekAt(s, r.pos, {'|'});
    if !bar {
      return Ok(r.cmd, k);
    }
    var tok := GetToken(s, k);
    var right := ParsePipe(s, tok.next);
    if right.Panic? {
      return Panic;
    }
    return Ok(Pipe(r.cmd, right.cmd), right.pos);
  }

  method ParseLine(s: string, i: nat) returns (r: Result)
    requires i <= |s|
    ensures r == LineAt(s, i) && (r.Ok? ==> SpansOk(s, r.cmd))
    decreases |s| - i, 3
  {
    hide PipeAt, IsSpan;
    r := ParsePipe(s, i);
    if r.Panic? {
      return;
    }
    ghost var c0, j0 := r.cmd, r.pos;
    var cmd, j := r.cmd, r.pos;
    while true
      invariant i <= j <= |s| && BacksAt(s, j0, c0) == BacksAt(s, j, cmd) && SpansOk(s, cmd)
      decreases |s| - j
    {
      SkipTwice(s, j);
      var k, amp := PeekAt(s, j, {'&'});
      if !amp {
        j := k;
        break;
      }
      var tok := GetToken(s, k);
      cmd := Back(cmd);
      j := tok.next;
    }
    SkipTwice(s, j);
    var k, semi := PeekAt(s, j, {';'});
    if !semi {
      return Ok(cmd, k);
    }
    var tok := GetToken(s, k);
    var right := ParseLine(s, tok.next);
    if right.Panic? {
      return Panic;
    }
    return Ok(Sequence(cmd, right.cmd), right.pos);
  }

  // ---- terminating the words ----

  const NUL: char := '\0'

  // The ends of the words of a command.
  ghost predicate IsEnd(c: Cmd<Span>, k: nat) {
    exists w :: w in Spans(c) && w.1 == k
  }

  // b' is b with every word of c terminated, and nothing else changed.
  ghost predicate Terminated(b: seq<char>, b': seq<char>, c: Cmd<Span>) {
    |b'| == |b| && forall k: nat :: k < |b| ==> b'[k] == if IsEnd(c, k) then NUL else b[k]
  }

  ghost predicate InBuffer(b: seq<char>, c: Cmd<Span>) {
    forall w :: w in Spans(c) ==> w.1 < |b|
  }

  lemma TerminatedBoth(b0: seq<char>, b1: seq<char>, b2: seq<char>, l: Cmd<Span>, r: Cmd<Span>, c: Cmd<Span>)
    requires Terminated(b0, b1, l) && Terminated(b1, b2, r) && Spans(c) == Spans(l) + Spans(r)
    ensures Terminated(b0, b2, c)
  {
    hide Spans;
    forall k: nat ensures IsEnd(c, k) <==> IsEnd(l, k) || IsEnd(r, k) {
    }
  }

  // Write a NUL at the end of every word.
  method Nulterminate(c: Cmd<Span>, buf: array<char>)
    requires InBuffer(buf[..], c)
    modifies buf
    ensures Terminated(old(buf[..]), buf[..], c)
    decreases c
  {
    match c
    case Exec(argv) =>
      var i := 0;
      while i < |argv|
        invariant i <= |argv|
        invariant forall k: nat :: k < buf.Length ==>
          buf[k] == if exists j :: 0 <= j < i && argv[j].1 == k then NUL else old(buf[k])
      {
        assert argv[i] in Spans(c);
        buf[argv[i].1] := NUL;
        i := i + 1;
      }
      forall k: nat ensures IsEnd(c, k) <==> exists j :: 0 <= j < |argv| && argv[j].1 == k {
        if exists j :: 0 <= j < |argv| && argv[j].1 == k {
          var j :| 0 <= j < |argv| && argv[j].1 == k;
          assert argv[j] in Spans(c);
        }
      }
    case Redir(d, f, _) =>
      Nulterminate(d, buf);
      ghost var b1 := buf[..];
      buf[f.1] := NUL;
      forall k: nat ensures IsEnd(c, k) <==> IsEnd(d, k) || f.1 == k {
        assert f in Spans(c);
      }
    case Pipe(l, r) =>
      Nulterminate(l, buf);
      ghost var b1 := buf[..];
      Nulterminate(r, buf);
      TerminatedBoth(old(buf[..]), b1, buf[..], l, r, c);
    case Sequence(l, r) =>
      Nulterminate(l, buf);
      ghost var b1 := buf[..];
      Nulterminate(r, buf);
      TerminatedBoth(old(buf[..]), b1, buf[..], l, r, c);
    case Back(d) =>
      Nulterminate(d, buf);
      forall k: nat ensures IsEnd(c, k) <==> IsEnd(d, k) {
      }
  }

  // The string a C program reads at w.0 is the word w of the input.
  ghost predicate HoldsWord(b: seq<char>, s: string, w: Span) {
    && w.0 < w.1 < |b| && w.1 <= |s| && b[w.0..w.1] == s[w.0..w.1] && b[w.1] == NUL
    && forall k :: w.0 <= k < w.1 ==> b[k] != NUL
  }

  // Terminating one word never damages another: the end of a word is not inside a word.
  lemma WordsKept(s: string, b: seq<char>, c: Cmd<Span>, w: Span)
    requires SpansOk(s, c) && Terminated(s + [NUL], b, c) && w in Spans(c) && NUL !in s
    ensures HoldsWord(b, s, w)
  {
    hide Spans;
    assert IsSpan(s, w) && IsEnd(c, w.1);
    forall k: nat | w.0 <= k < w.1 ensures b[k] == s[k] && s[k] != NUL {
      EndOutside(s, c, k);
      assert s[k] in s;
    }
  }

  lemma EndOutside(s: string, c: Cmd<Span>, k: nat)
    requires SpansOk(s, c) && k < |s|
    ensures IsEnd(c, k) ==> !IsWordChar(s[k])
  {
    hide Spans;
    if IsEnd(c, k) {
      var v :| v in Spans(c) && v.1 == k;
      assert IsSpan(s, v);
    }
  }

  // Parse the NUL-terminated string in buf.
  method ParseCommand(buf: array<char>, s: string) returns (r: Result)
    requires buf[..] == s + [NUL] && NUL !in s
    modifies buf
    ensures r == ParseCmd(s)
    ensures r.Ok? ==> Terminated(s + [NUL], buf[..], r.cmd) && forall w :: w in Spans(r.cmd) ==>
      HoldsWord(buf[..], s, w)
    ensures r.Panic? ==> buf[..] == s + [NUL]
  {
    hide LineAt, IsSpan, Terminated, Spans;
    r := ParseLine(s, 0);
    if r.Panic? {
      return;
    }
    var k, _ := PeekAt(s, r.pos, {});
    if k != |s| {
      return Panic;
    }
    SpansInBuffer(s, r.cmd);
    Nulterminate(r.cmd, buf);
    forall w | w in Spans(r.cmd) ensures HoldsWord(buf[..], s, w) {
      WordsKept(s, buf[..], r.cmd, w);
    }
    return Ok(r.cmd, k);
  }

  lemma SpansInBuffer(s: string, c: Cmd<Span>)
    requires SpansOk(s, c)
    ensures InBuffer(s + [NUL], c)
  {
    forall w | w in Spans(c) ensures w.1 < |s| + 1 {
      assert IsSpan(s, w);
    }
  }
}
