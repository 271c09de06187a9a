// Command lines as they are typed to user/sh.c: words and redirections in any order, in
// pipelines, lists and background jobs, with blanks wherever the shell allows them.
module ShellLines {
  import opened ShellGrammar

  // A word or a redirection, with the blanks that follow each part of it.
  datatype Item = Arg(word: string, gap: string) | Into(mode: Mode, mid: string, file: string, gap: string)

  predicate Blank(g: string) {
    forall k :: 0 <= k < |g| ==> IsSpace(g[k])
  }

  function ItemText(it: Item): string {
    match it
    case Arg(w, g) => w + g
    case Into(m, mid, f, g) => Arrow(m) + mid + (f + g)
  }

  function ItemsText(items: seq<Item>): string {
    if items == [] then "" else ItemText(items[0]) + ItemsText(items[1..])
  }

  predicate LegalItem(it: Item) {
    match it
    case Arg(w, g) => LegalWord(w) && Blank(g)
    case Into(_, mid, f, g) => Blank(mid) && LegalWord(f) && Blank(g)
  }

  // Blanks keep two words apart.
  predicate LegalItems(items: seq<Item>) {
    && (forall k :: 0 <= k < |items| ==> LegalItem(items[k]))
    && (forall k :: 0 < k < |items| && items[k - 1].gap == "" ==> items[k].Into?)
  }

  // ---- what a line means ----

  function Words(items: seq<Item>): seq<string> {
    if items == [] then [] else (if items[0].Arg? then [items[0].word] else []) + Words(items[1..])
  }

  function Files(items: seq<Item>): seq<(Mode, string)> {
    if items == [] then []
    else (if items[0].Into? then [(items[0].mode, items[0].file)] else []) + Files(items[1..])
  }

  // A command inside redirections, the last one outermost.
  function Around(c: Cmd<string>, files: seq<(Mode, string)>): Cmd<string> {
    if files == [] then c
    else var n := |files| - 1; Redir(Around(c, files[..n]), files[n].1, files[n].0)
  }

  function Meaning(items: seq<Item>): Cmd<string> {
    Around(Exec(Words(items)), Files(items))
  }

  // Simple commands joined by |, and pipelines, each put into the background by any number
  // of &, joined by ;.  Blanks follow every symbol.
  datatype Pipeline = Last(items: seq<Item>) | Bar(items: seq<Item>, gap: string, rest: Pipeline)

  datatype Line = Final(pipe: Pipeline, backs: seq<string>)
    | Then(pipe: Pipeline, backs: seq<string>, gap: string, rest: Line)

  function PipeText(p: Pipeline): string {
    match p
    case Last(items) => ItemsText(items)
    case Bar(items, g, rest) => ItemsText(items) + ("|" + (g + PipeText(rest)))
  }

  function BacksText(backs: seq<string>): string {
    if backs == [] then "" else "&" + (backs[0] + BacksText(backs[1..]))
  }

  function LineText(l: Line): string {
    match l
    case Final(p, backs) => PipeText(p) + BacksText(backs)
    case Then(p, backs, g, rest) => PipeText(p) + (BacksText(backs) + (";" + (g + LineText(rest))))
  }

  predicate LegalPipe(p: Pipeline) {
    match p
    case Last(items) => LegalItems(items)
    case Bar(items, g, rest) => LegalItems(items) && Blank(g) && LegalPipe(rest)
  }

  predicate LegalBacks(backs: seq<string>) {
    forall k :: 0 <= k < |backs| ==> Blank(backs[k])
  }

  predicate LegalLine(l: Line) {
    match l
    case Final(p, backs) => LegalPipe(p) && LegalBacks(backs)
    case Then(p, backs, g, rest) => LegalPipe(p) && LegalBacks(backs) && Blank(g) && LegalLine(rest)
  }

  function PipeMeaning(p: Pipeline): Cmd<string> {
    match p
    case Last(items) => Meaning(items)
    case Bar(items, _, rest) => Pipe(Meaning(items), PipeMeaning(rest))
  }

  function Behind(c: Cmd<string>, n: nat): Cmd<string>
    decreases n
  {
    if n == 0 then c else Behind(Back(c), n - 1)
  }

  function LineMeaning(l: Line): Cmd<string> {
    match l
    case Final(p, backs) => Behind(PipeMeaning(p), |backs|)
    case Then(p, backs, _, rest) => Sequence(Behind(PipeMeaning(p), |backs|), LineMeaning(rest))
  }

  // No simple command has too many words.
  predicate PipeFits(p: Pipeline) {
    match p
    case Last(items) => |Words(items)| < MAXARGS
    case Bar(items, _, rest) => |Words(items)| < MAXARGS && PipeFits(rest)
  }

  predicate LineFits(l: Line) {
    match l
    case Final(p, _) => PipeFits(p)
    case Then(p, _, _, rest) => PipeFits(p) && LineFits(rest)
  }

  // ---- tokens in a text ----

  // What follows a simple command.
  predicate Tail(t: string) {
    t == "" || t[0] == '|' || t[0] == '&' || t[0] == ';'
  }

  // t is empty or begins with something that is not a blank.
  predicate Starts(t: string) {
    t == "" || !IsSpace(t[0])
  }

  // The rest of s from i on is t.
  predicate Rest(s: string, i: nat, t: string) {
    i <= |s| && s[i..] == t
  }

  lemma RestConcat(s: string, i: nat, a: string, b: string)
    requires Rest(s, i, a + b)
    ensures i + |a| <= |s| && Rest(s, i + |a|, b) && Stands(s, i, a)
  {
    assert s[i + |a|..] == s[i..][|a|..];
    assert s[i..i + |a|] == s[i..][..|a|];
  }

  lemma RestFirst(s: string, i: nat, t: string)
    requires Rest(s, i, t)
    ensures if t == "" then i == |s| else i < |s| && s[i] == t[0]
  {
    if t != "" {
      assert s[i..][0] == s[i];
    }
  }

  lemma {:induction false} SkipBlanks(s: string, i: nat, g: string, t: string)
    requires Rest(s, i, g + t) && Blank(g) && Starts(t)
    ensures Skip(s, i) == i + |g| && Rest(s, i + |g|, t)
    decreases |g|
  {
    RestConcat(s, i, g, t);
    RestFirst(s, i, g + t);
    if g == "" {
      RestFirst(s, i, t);
    } else {
      assert (g + t)[0] == g[0];
      assert g + t == [g[0]] + (g[1..] + t);
      RestConcat(s, i, [g[0]], g[1..] + t);
      SkipBlanks(s, i + 1, g[1..], t);
    }
  }

  lemma GapFirst(g: string, t: string)
    requires Blank(g) && (g == "" && t != "" ==> !IsWordChar(t[0]))
    ensures g + t != "" ==> !IsWordChar((g + t)[0])
  {
    assert g == "" ==> g + t == t;
  }

  lemma WordHere(s: string, i: nat, w: string, g: string, t: string)
    requires Rest(s, i, w + (g + t)) && LegalWord(w) && Blank(g) && Starts(t)
    requires g == "" && t != "" ==> !IsWordChar(t[0])
    ensures Get(s, i) == Token(Word, i, i + |w|, i + |w| + |g|) && Slice(s, (i, i + |w|)) == w
    ensures Rest(s, i + |w| + |g|, t)
  {
    hide Get, Slice, Skip, LegalWord, Blank, Rest, Stands, IsWordChar;
    RestConcat(s, i, w, g + t);
    RestFirst(s, i + |w|, g + t);
    GapFirst(g, t);
    WordAt(s, i, w);
    SkipBlanks(s, i + |w|, g, t);
  }

  lemma ArrowHere(s: string, i: nat, m: Mode, mid: string, t: string)
    requires Rest(s, i, Arrow(m) + (mid + t)) && Blank(mid) && t != "" && IsWordChar(t[0])
    ensures var k := Get(s, i); Peek(s, i, {'<', '>'}) && ModeOf(k.kind) == m && k.next == i + |Arrow(m)| + |mid|
    ensures Rest(s, i + |Arrow(m)| + |mid|, t)
  {
    var a := Arrow(m);
    RestConcat(s, i, a, mid + t);
    SkipBlanks(s, i + |a|, mid, t);
    RestFirst(s, i, a + (mid + t));
    RestFirst(s, i + |a|, mid + t);
    assert mid != "" ==> (mid + t)[0] == mid[0];
    assert mid == "" ==> mid + t == t;
    assert |a| == 2 ==> s[i..i + |a|][1] == s[i + 1];
    Here(s, i);
  }

  // ---- simple commands ----

  lemma ItemsStart(items: seq<Item>, tail: string)
    requires LegalItems(items) && Tail(tail)
    ensures var t := ItemsText(items) + tail;
      && Starts(t) && (t != "" ==> t[0] != '(' && t[0] != ')')
      && (items == [] ==> t == tail)
      && (items != [] ==> t != "" && if items[0].Into? then t[0] == '<' || t[0] == '>' else IsWordChar(t[0]))
  {
    if items != [] {
      assert LegalItem(items[0]);
      assert (ItemsText(items) + tail)[0] == ItemText(items[0])[0];
    } else {
      assert ItemsText(items) + tail == tail;
    }
  }

  lemma ItemsSplit(items: seq<Item>, tail: string)
    requires items != [] && LegalItems(items) && Tail(tail)
    ensures ItemsText(items) + tail == ItemText(items[0]) + (ItemsText(items[1..]) + tail)
    ensures LegalItem(items[0]) && LegalItems(items[1..])
    ensures var t := ItemsText(items[1..]) + tail;
      Starts(t) && (items[0].gap == "" && t != "" ==> !IsWordChar(t[0]))
  {
    hide LegalItem, LegalItems, ItemText, Starts;
    LegalRest(items);
    ItemsStart(items[1..], tail);
    assert ItemText(items[0]) + ItemsText(items[1..]) + tail == ItemText(items[0]) + (ItemsText(items[1..]) + tail);
  }

  lemma LegalRest(items: seq<Item>)
    requires items != [] && LegalItems(items)
    ensures LegalItem(items[0]) && LegalItems(items[1..])
    ensures items[0].gap == "" && |items| > 1 ==> items[1].Into?
  {
    hide LegalItem;
    var rest := items[1..];
    assert forall k :: 0 <= k < |rest| ==> rest[k] == items[k + 1];
    assert forall k :: 0 < k < |rest| ==> rest[k - 1] == items[k];
  }

  lemma NoWords()
    ensures Words([]) == [] && Files([]) == []
  {
  }

  lemma WordsFirst(items: seq<Item>)
    requires items != [] && items[0].Arg?
    ensures Words(items) == [items[0].word] + Words(items[1..]) && Files(items) == Files(items[1..])
  {
  }

  lemma FilesFirst(items: seq<Item>)
    requires items != [] && items[0].Into?
    ensures Files(items) == [(items[0].mode, items[0].file)] + Files(items[1..]) && Words(items) == Words(items[1..])
  {
  }

  lemma Assoc<T>(a: seq<T>, b: seq<T>, c: seq<T>)
    ensures a + b + c == a + (b + c)
  {
  }

  // The texts of some redirections.
  function Named(s: string, redirs: seq<Redirection>): (r: seq<(Mode, string)>)
    ensures |r| == |redirs|
  {
    seq(|redirs|, k requires 0 <= k < |redirs| => (redirs[k].mode, Slice(s, redirs[k].file)))
  }

  lemma IntoText(it: Item, t: string)
    requires it.Into?
    ensures ItemText(it) + t == Arrow(it.mode) + (it.mid + (it.file + (it.gap + t)))
    ensures |ItemText(it)| == |Arrow(it.mode)| + |it.mid| + |it.file| + |it.gap|
    ensures LegalItem(it) ==> (it.file + (it.gap + t) != "" && IsWordChar((it.file + (it.gap + t))[0]))
  {
  }

  // The two tokens of a redirection.
  lemma IntoTokens(s: string, i: nat, it: Item, t: string) returns (n: nat)
    requires it.Into? && LegalItem(it) && Rest(s, i, ItemText(it) + t) && Starts(t)
    requires it.gap == "" && t != "" ==> !IsWordChar(t[0])
    ensures i <= |s| && Peek(s, i, {'<', '>'}) && ModeOf(Get(s, i).kind) == it.mode && Get(s, i).next == n
    ensures var j := i + |ItemText(it)|;
      && n <= |s| && Get(s, n) == Token(Word, n, n + |it.file|, j) && Slice(s, (n, n + |it.file|)) == it.file
      && Rest(s, j, t)
  {
    hide Get, Peek, Slice, Skip, ItemText, Arrow, ModeOf;
    IntoText(it, t);
    ArrowHere(s, i, it.mode, it.mid, it.file + (it.gap + t));
    n := i + |Arrow(it.mode)| + |it.mid|;
    WordHere(s, n, it.file, it.gap, t);
  }

  lemma IntoHere(s: string, i: nat, it: Item, t: string, acc: seq<Redirection>) returns (r: Redirection)
    requires it.Into? && LegalItem(it) && Rest(s, i, ItemText(it) + t) && Starts(t)
    requires it.gap == "" && t != "" ==> !IsWordChar(t[0])
    ensures var j := i + |ItemText(it)|;
      i <= |s| && j <= |s| && Rest(s, j, t) && RedirsAt(s, i, acc) == RedirsAt(s, j, acc + [r])
    ensures r.mode == it.mode && Slice(s, r.file) == it.file
  {
    hide Get, Peek, Slice, Skip, ItemText, Arrow, ModeOf, LegalItem, Starts;
    var n := IntoTokens(s, i, it, t);
    r := Redirection((n, n + |it.file|), it.mode);
  }

  lemma NamedAppend(s: string, redirs: seq<Redirection>, r: Redirection)
    ensures Named(s, redirs + [r]) == Named(s, redirs) + [(r.mode, Slice(s, r.file))]
  {
    hide Slice;
  }

  // The redirections that items begin with.
  lemma {:induction false} RedirsRun(s: string, i: nat, acc: seq<Redirection>, items: seq<Item>, tail: string)
    returns (all: seq<Redirection>, j: nat, rest: seq<Item>)
    requires LegalItems(items) && Tail(tail) && Rest(s, i, ItemsText(items) + tail)
    ensures i <= |s| && Rest(s, j, ItemsText(rest) + tail) && RedirsAt(s, i, acc) == Redirs(all, j)
    ensures LegalItems(rest) && |rest| <= |items| && (rest != [] ==> rest[0].Arg?)
    ensures Words(items) == Words(rest) && Named(s, acc) + Files(items) == Named(s, all) + Files(rest)
    decreases |items|
  {
    hide RedirsAt, Slice, LegalItems, LegalItem, Rest, Starts, ItemText, Named, ItemsText, Words, Files;
    ItemsStart(items, tail);
    if items != [] && items[0].Into? {
      ItemsSplit(items, tail);
      var t := ItemsText(items[1..]) + tail;
      var r := IntoHere(s, i, items[0], t, acc);
      all, j, rest := RedirsRun(s, i + |ItemText(items[0])|, acc + [r], items[1..], tail);
      NamedAppend(s, acc, r);
      FilesFirst(items);
      Assoc(Named(s, acc), [(items[0].mode, items[0].file)], Files(items[1..]));
    } else {
      all, j, rest := acc, i, items;
      NoInto(s, i, acc, ItemsText(items) + tail);
    }
  }

  lemma NoInto(s: string, i: nat, acc: seq<Redirection>, t: string)
    requires Rest(s, i, t) && Starts(t) && (t != "" ==> t[0] != '<' && t[0] != '>')
    ensures RedirsAt(s, i, acc) == Redirs(acc, i)
  {
    RestFirst(s, i, t);
    NoRedirs(s, i, acc);
  }

  lemma ArgHere(s: string, i: nat, it: Item, t: string)
    requires it.Arg? && LegalItem(it) && Rest(s, i, ItemText(it) + t) && Starts(t)
    requires it.gap == "" && t != "" ==> !IsWordChar(t[0])
    ensures var j := i + |ItemText(it)|;
      && Rest(s, j, t) && Get(s, i) == Token(Word, i, i + |it.word|, j) && Slice(s, (i, i + |it.word|)) == it.word
      && !Peek(s, i, {'|', ')', '&', ';'}) && j <= |s|
  {
    hide Get, Slice;
    assert ItemText(it) + t == it.word + (it.gap + t);
    WordHere(s, i, it.word, it.gap, t);
    RestFirst(s, i, ItemText(it) + t);
    assert (ItemText(it) + t)[0] == it.word[0];
    Here(s, i);
  }

  lemma ArgsNext(s: string, i: nat, argv: seq<Span>, redirs: seq<Redirection>, w: Span, n: nat,
                 more: seq<Redirection>, j: nat)
    requires i <= |s| && !Peek(s, i, {'|', ')', '&', ';'}) && Get(s, i) == Token(Word, w.0, w.1, n)
    requires n <= |s| && RedirsAt(s, n, redirs) == Redirs(more, j)
    ensures j <= |s| && ArgsAt(s, i, argv, redirs)
         == if |argv| + 1 >= MAXARGS then ArgPanic else ArgsAt(s, j, argv + [w], more)
  {
    hide Get, RedirsAt, Peek, Skip;
  }

  // The words and redirections of a simple command after those it begins with: too many words
  // are the panic of parseexec.
  lemma {:induction false} ArgsRun(s: string, i: nat, argv: seq<Span>, redirs: seq<Redirection>, items: seq<Item>,
                                   tail: string)
    returns (argv': seq<Span>, redirs': seq<Redirection>)
    requires LegalItems(items) && Tail(tail) && Rest(s, i, ItemsText(items) + tail)
    requires (items != [] ==> items[0].Arg?) && |argv| < MAXARGS
    ensures i <= |s|
    ensures |argv| + |Words(items)| >= MAXARGS ==> ArgsAt(s, i, argv, redirs) == ArgPanic
    ensures |argv| + |Words(items)| < MAXARGS ==>
      && |tail| <= |s| && ArgsAt(s, i, argv, redirs) == Args(argv', redirs', |s| - |tail|)
      && Texts(s, argv') == Texts(s, argv) + Words(items) && Named(s, redirs') == Named(s, redirs) + Files(items)
    decreases |items|
  {
    hide Get, RedirsAt, Slice, Skip, Peek, ArgsAt, LegalItems, LegalItem, Tail, Rest, Starts, ItemText, Named, Texts,
         ItemsText, Words, Files;
    ItemsStart(items, tail);
    argv', redirs' := argv, redirs;
    if items == [] {
      ArgsDone(s, i, argv, redirs, tail);
      NoWords();
    } else {
      ItemsSplit(items, tail);
      var t, it := ItemsText(items[1..]) + tail, items[0];
      var w, n := (i, i + |it.word|), i + |ItemText(it)|;
      ArgHere(s, i, it, t);
      var more, j, rest := RedirsRun(s, n, redirs, items[1..], tail);
      ArgsNext(s, i, argv, redirs, w, n, more, j);
      WordsFirst(items);
      if |argv| + 1 < MAXARGS {
        argv', redirs' := ArgsRun(s, j, argv + [w], more, rest, tail);
        TextsAppend(s, argv, w);
        Assoc(Texts(s, argv), [it.word], Words(rest));
      }
    }
  }

  lemma ArgsDone(s: string, i: nat, argv: seq<Span>, redirs: seq<Redirection>, tail: string)
    requires Tail(tail) && Rest(s, i, tail)
    ensures ArgsAt(s, i, argv, redirs) == Args(argv, redirs, |s| - |tail|) && i == |s| - |tail|
  {
    RestFirst(s, i, tail);
    Here(s, i);
  }

  lemma {:induction false} WrapMeans(s: string, c: Cmd<Span>, redirs: seq<Redirection>)
    ensures Text(s, Wrap(c, redirs)) == Around(Text(s, c), Named(s, redirs))
    decreases |redirs|
  {
    if redirs != [] {
      var n := |redirs| - 1;
      assert Named(s, redirs)[..n] == Named(s, redirs[..n]);
      WrapMeans(s, c, redirs[..n]);
    }
  }

  // A parsed command and the place after it.
  ghost predicate Gives(s: string, r: Result, c: Cmd<string>, tail: string) {
    r.Ok? && |tail| <= |s| && r.pos == |s| - |tail| && Text(s, r.cmd) == c
  }

  // A simple command is its words in order, inside its redirections in order.
  lemma SimpleAt(s: string, i: nat, items: seq<Item>, tail: string)
    requires LegalItems(items) && Tail(tail) && Rest(s, i, ItemsText(items) + tail)
    ensures i <= |s|
    ensures if |Words(items)| < MAXARGS then Gives(s, ExecAt(s, i), Meaning(items), tail) else ExecAt(s, i) == Panic
  {
    hide ArgsAt, RedirsAt, Wrap, Slice, Skip, LegalItems, Tail, Rest, ItemsText, Named, Around, Words, Files, BlockAt;
    ItemsStart(items, tail);
    NotBlock(s, i, ItemsText(items) + tail);
    var first, j, rest := RedirsRun(s, i, [], items, tail);
    var argv, redirs := ArgsRun(s, j, [], first, rest, tail);
    NamedNone(s);
    WrapMeans(s, Exec(argv), redirs);
    assert [] + Files(items) == Files(items) && [] + Words(rest) == Words(rest);
  }

  lemma NamedNone(s: string)
    ensures Named(s, []) == [] && Texts(s, []) == []
  {
  }

  lemma NotBlock(s: string, i: nat, t: string)
    requires Rest(s, i, t) && Starts(t) && (t != "" ==> t[0] != '(')
    ensures i <= |s| && !Peek(s, i, {'('})
  {
    RestFirst(s, i, t);
    Here(s, i);
  }

  // ---- pipelines, background jobs and lists ----

  // What follows a pipeline, and what follows a job.
  predicate PipeTail(t: string) {
    t == "" || t[0] == '&' || t[0] == ';'
  }

  predicate JobTail(t: string) {
    t == "" || t[0] == ';'
  }

  // A symbol other than > with blanks after it.
  lemma SymbolHere(s: string, i: nat, c: char, g: string, t: string)
    requires Rest(s, i, [c] + (g + t)) && IsSymbol(c) && c != '>' && Blank(g) && Starts(t)
    ensures i <= |s| && Peek(s, i, {c}) && Skip(s, i) == i && Get(s, i).next == i + 1 + |g| && Rest(s, i + 1 + |g|, t)
  {
    hide WordEnd;
    RestConcat(s, i, [c], g + t);
    RestFirst(s, i, [c] + (g + t));
    SymbolAt(s, i, c);
    Here(s, i);
    SkipBlanks(s, i + 1, g, t);
  }

  lemma NotSymbol(s: string, i: nat, c: char, t: string)
    requires Rest(s, i, t) && Starts(t) && (t != "" ==> t[0] != c)
    ensures i <= |s| && !Peek(s, i, {c}) && Skip(s, i) == i
  {
    RestFirst(s, i, t);
    Here(s, i);
  }

  lemma RestEnd(s: string, i: nat, t: string)
    requires Rest(s, i, t)
    ensures i == |s| - |t|
  {
  }

  lemma RestAt(s: string, i: nat, a: string, t: string)
    requires Rest(s, i, a + t)
    ensures |t| <= |s| && Rest(s, |s| - |t|, t)
  {
    RestConcat(s, i, a, t);
    RestEnd(s, i + |a|, t);
  }

  lemma PipeStart(p: Pipeline, tail: string)
    requires LegalPipe(p) && PipeTail(tail)
    ensures Starts(PipeText(p) + tail)
  {
    hide ItemsText, LegalItems, Starts;
    if p.Last? {
      ItemsStart(p.items, tail);
    } else {
      var bar := "|" + (p.gap + PipeText(p.rest));
      ItemsStart(p.items, bar + tail);
      assert ItemsText(p.items) + bar + tail == ItemsText(p.items) + (bar + tail);
    }
  }

  lemma PipeEnds(s: string, i: nat, items: seq<Item>, tail: string)
    requires LegalItems(items) && PipeTail(tail) && Rest(s, i, ItemsText(items) + tail)
    ensures i <= |s|
    ensures if |Words(items)| < MAXARGS then Gives(s, PipeAt(s, i), Meaning(items), tail) else PipeAt(s, i) == Panic
  {
    hide ExecAt, Get, LegalItems, ItemsText, Meaning, Words, Rest;
    SimpleAt(s, i, items, tail);
    RestAt(s, i, ItemsText(items), tail);
    NotSymbol(s, |s| - |tail|, '|', tail);
  }

  lemma PipeBar(s: string, i: nat, items: seq<Item>, g: string, t: string) returns (c: Cmd<Span>)
    requires LegalItems(items) && Blank(g) && Starts(t) && Rest(s, i, ItemsText(items) + ("|" + (g + t)))
    ensures i <= |s| && |t| <= |s| && Rest(s, |s| - |t|, t)
    ensures |Words(items)| >= MAXARGS ==> PipeAt(s, i) == Panic
    ensures |Words(items)| < MAXARGS ==>
      var r := PipeAt(s, |s| - |t|);
      Text(s, c) == Meaning(items) && PipeAt(s, i) == if r.Ok? then Ok(Pipe(c, r.cmd), r.pos) else Panic
  {
    hide ExecAt, Get, LegalItems, ItemsText, Meaning, Words, Rest, Peek, Text;
    var bar := "|" + (g + t);
    SimpleAt(s, i, items, bar);
    RestAt(s, i, ItemsText(items), bar);
    SymbolHere(s, |s| - |bar|, '|', g, t);
    RestEnd(s, |s| - |bar| + 1 + |g|, t);
    c := if |Words(items)| < MAXARGS then ExecAt(s, i).cmd else Exec([]);
  }

  lemma {:induction false} PipelineAt(s: string, i: nat, p: Pipeline, tail: string)
    requires LegalPipe(p) && PipeTail(tail) && Rest(s, i, PipeText(p) + tail)
    ensures i <= |s|
    ensures if PipeFits(p) then Gives(s, PipeAt(s, i), PipeMeaning(p), tail) else PipeAt(s, i) == Panic
    decreases p
  {
    hide PipeAt, LegalItems, ItemsText, Meaning, Words, Rest, Starts;
    match p
    case Last(items) => PipeEnds(s, i, items, tail);
    case Bar(items, g, rest) =>
      var t := PipeText(rest) + tail;
      assert PipeText(p) + tail == ItemsText(items) + ("|" + (g + t));
      PipeStart(rest, tail);
      var c := PipeBar(s, i, items, g, t);
      PipelineAt(s, |s| - |t|, rest, tail);
  }

  lemma {:induction false} BackgroundAt(s: string, i: nat, backs: seq<string>, tail: string, c: Cmd<Span>)
    requires LegalBacks(backs) && JobTail(tail) && Rest(s, i, BacksText(backs) + tail)
    ensures i <= |s| && |tail| <= |s| && BacksAt(s, i, c).1 == |s| - |tail|
    ensures Text(s, BacksAt(s, i, c).0) == Behind(Text(s, c), |backs|)
    decreases |backs|
  {
    hide Get, Skip, Peek, Rest;
    if backs == [] {
      assert BacksText(backs) + tail == tail;
      NotSymbol(s, i, '&', tail);
      RestEnd(s, i, tail);
    } else {
      var t := BacksText(backs[1..]) + tail;
      assert BacksText(backs) + tail == "&" + (backs[0] + t);
      assert t != "" ==> t[0] == '&' || t[0] == ';';
      SymbolHere(s, i, '&', backs[0], t);
      BackgroundAt(s, i + 1 + |backs[0]|, backs[1..], tail, Back(c));
    }
  }

  // A pipeline and the & after it.
  lemma JobAt(s: string, i: nat, p: Pipeline, backs: seq<string>, tail: string) returns (b: Cmd<Span>)
    requires LegalPipe(p) && LegalBacks(backs) && JobTail(tail) && Rest(s, i, PipeText(p) + (BacksText(backs) + tail))
    ensures i <= |s| && |tail| <= |s| && Rest(s, |s| - |tail|, tail)
    ensures !PipeFits(p) ==> PipeAt(s, i) == Panic
    ensures PipeFits(p) ==>
      && PipeAt(s, i).Ok? && BacksAt(s, PipeAt(s, i).pos, PipeAt(s, i).cmd) == (b, |s| - |tail|)
      && Text(s, b) == Behind(PipeMeaning(p), |backs|)
  {
    hide PipeAt, BacksAt, LegalPipe, LegalBacks, PipeText, PipeMeaning, Rest, PipeFits;
    var t := BacksText(backs) + tail;
    assert t != "" ==> t[0] == '&' || t[0] == ';';
    PipelineAt(s, i, p, t);
    RestAt(s, i, PipeText(p), t);
    RestAt(s, |s| - |t|, BacksText(backs), tail);
    b := Exec([]);
    if PipeFits(p) {
      BackgroundAt(s, |s| - |t|, backs, tail, PipeAt(s, i).cmd);
      b := BacksAt(s, |s| - |t|, PipeAt(s, i).cmd).0;
    }
  }

  lemma LineStart(l: Line)
    requires LegalLine(l)
    ensures Starts(LineText(l))
  {
    var t := BacksText(l.backs) + if l.Then? then ";" + (l.gap + LineText(l.rest)) else "";
    PipeStart(l.pipe, t);
    assert LineText(l) == PipeText(l.pipe) + t;
  }

  lemma LastJob(s: string, i: nat, p: Pipeline, backs: seq<string>)
    requires LegalPipe(p) && LegalBacks(backs) && Rest(s, i, PipeText(p) + BacksText(backs))
    ensures i <= |s|
    ensures if PipeFits(p) then Gives(s, LineAt(s, i), Behind(PipeMeaning(p), |backs|), "") else LineAt(s, i) == Panic
  {
    hide PipeAt, BacksAt, LegalPipe, LegalBacks, PipeText, BacksText, PipeMeaning, Rest, PipeFits, Get;
    assert BacksText(backs) + "" == BacksText(backs);
    var b := JobAt(s, i, p, backs, "");
    NotSymbol(s, |s|, ';', "");
  }

  lemma JobThen(s: string, i: nat, p: Pipeline, backs: seq<string>, g: string, t: string) returns (b: Cmd<Span>)
    requires LegalPipe(p) && LegalBacks(backs) && Blank(g) && Starts(t)
    requires Rest(s, i, PipeText(p) + (BacksText(backs) + (";" + (g + t))))
    ensures i <= |s| && |t| <= |s| && Rest(s, |s| - |t|, t)
    ensures !PipeFits(p) ==> LineAt(s, i) == Panic
    ensures PipeFits(p) ==>
      var r := LineAt(s, |s| - |t|);
      && Text(s, b) == Behind(PipeMeaning(p), |backs|)
      && LineAt(s, i) == if r.Ok? then Ok(Sequence(b, r.cmd), r.pos) else Panic
  {
    hide PipeAt, BacksAt, LegalPipe, LegalBacks, PipeText, BacksText, PipeMeaning, Rest, PipeFits, Get, Peek, Text,
         Behind;
    var semi := ";" + (g + t);
    b := JobAt(s, i, p, backs, semi);
    SymbolHere(s, |s| - |semi|, ';', g, t);
    RestEnd(s, |s| - |semi| + 1 + |g|, t);
  }

  lemma {:induction false} LineOfJobs(s: string, i: nat, l: Line)
    requires LegalLine(l) && Rest(s, i, LineText(l))
    ensures i <= |s|
    ensures if LineFits(l) then Gives(s, LineAt(s, i), LineMeaning(l), "") else LineAt(s, i) == Panic
    decreases l
  {
    hide LineAt, LegalPipe, LegalBacks, PipeText, BacksText, PipeMeaning, Behind, Rest, PipeFits, Starts;
    match l
    case Final(p, backs) => LastJob(s, i, p, backs);
    case Then(p, backs, g, rest) =>
      LineStart(rest);
      var b := JobThen(s, i, p, backs, g, LineText(rest));
      LineOfJobs(s, |s| - |LineText(rest)|, rest);
  }

  lemma SameTokens(s: string, i: nat)
    requires i <= |s|
    ensures var j := Skip(s, i);
      Skip(s, j) == j && Get(s, i) == Get(s, j) && forall toks :: Peek(s, i, toks) <==> Peek(s, j, toks)
  {
    Here(s, Skip(s, i));
  }

  // Leading blanks change nothing.
  lemma AtSkip(s: string, i: nat)
    requires i <= |s|
    ensures LineAt(s, i) == LineAt(s, Skip(s, i))
  {
    SameTokens(s, i);
    SameExec(s, i);
    hide Get, Peek, ExecAt;
    assert PipeAt(s, i) == PipeAt(s, Skip(s, i));
  }

  lemma SameExec(s: string, i: nat)
    requires i <= |s|
    ensures ExecAt(s, i) == ExecAt(s, Skip(s, i))
  {
    hide Get, Peek, ArgsAt, LineAt, Wrap;
    SameTokens(s, i);
    assert RedirsAt(s, i, []) == RedirsAt(s, Skip(s, i), []);
  }

  // A line as it is typed is parsed as what it means: the words of each simple command in
  // order, inside its redirections in order with the last one outermost, | binding tighter than
  // & and & tighter than ;.  It is refused exactly if some simple command has too many words.
  lemma TypedLine(lead: string, l: Line)
    requires Blank(lead) && LegalLine(l)
    ensures var s := lead + LineText(l);
      if LineFits(l) then ParseCmd(s).Ok? && Text(s, ParseCmd(s).cmd) == LineMeaning(l) else ParseCmd(s) == Panic
  {
    hide LineAt, LegalLine, LineFits, LineMeaning, LineText;
    var s := lead + LineText(l);
    LineStart(l);
    assert s[0..] == s;
    SkipBlanks(s, 0, lead, LineText(l));
    AtSkip(s, 0);
    LineOfJobs(s, |lead|, l);
    Here(s, |s|);
  }
}
