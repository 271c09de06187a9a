// The regular-expression matcher of user/grep.c against the language of its patterns.
module RegexpMatcher {

  // c matches c or, if c is '.', anything; a star stands for any number of such characters.
  datatype Item = One(c: char) | Star(c: char)

  // end: the pattern finishes with '$' and must reach the end of the text.
  datatype Pattern = Pattern(items: seq<Item>, end: bool)

  predicate Fits(c: char, x: char) {
    c == '.' || c == x
  }

  // How a pattern is read.
  function Parse(re: string): Pattern {
    if re == "" then Pattern([], false)
    else if |re| >= 2 && re[1] == '*' then var p := Parse(re[2..]); Pattern([Star(re[0])] + p.items, p.end)
    else if re == "$" then Pattern([], true)
    else var p := Parse(re[1..]); Pattern([One(re[0])] + p.items, p.end)
  }

  predicate AllFit(c: char, w: string) {
    forall k :: 0 <= k < |w| ==> Fits(c, w[k])
  }

  // The language of a sequence of items.
  ghost predicate Word(items: seq<Item>, w: string) {
    if items == [] then w == ""
    else match items[0]
      case One(c) => w != "" && Fits(c, w[0]) && Word(items[1..], w[1..])
      case Star(c) => exists k :: 0 <= k <= |w| && AllFit(c, w[..k]) && Word(items[1..], w[k..])
  }

  ghost predicate WordTo(p: Pattern, text: string, k: nat)
    requires k <= |text|
  {
    Word(p.items, text[..k]) && (p.end ==> k == |text|)
  }

  // A word of the pattern stands at the beginning of text.
  ghost predicate Here(p: Pattern, text: string) {
    exists k: nat :: k <= |text| && WordTo(p, text, k)
  }

  ghost predicate Matches(re: string, text: string) {
    if re != "" && re[0] == '^' then Here(Parse(re[1..]), text)
    else exists i :: 0 <= i <= |text| && Here(Parse(re), text[i..])
  }

  lemma HereEmpty(text: string)
    ensures Here(Pattern([], false), text)
  {
    assert text[..0] == "";
    assert WordTo(Pattern([], false), text, 0);
  }

  lemma HereEnd(text: string)
    ensures Here(Pattern([], true), text) <==> text == ""
  {
    if text == "" {
      assert WordTo(Pattern([], true), text, 0);
    }
    if Here(Pattern([], true), text) {
      var k: nat :| k <= |text| && WordTo(Pattern([], true), text, k);
      assert text[..k] == text;
    }
  }

  lemma HereOne(c: char, p: Pattern, text: string)
    ensures Here(Pattern([One(c)] + p.items, p.end), text) <==> text != "" && Fits(c, text[0]) && Here(p, text[1..])
  {
    var q := Pattern([One(c)] + p.items, p.end);
    assert q.items[1..] == p.items;
    if Here(q, text) {
      var k: nat :| k <= |text| && WordTo(q, text, k);
      assert text[..k] != "" && text[..k][1..] == text[1..][..k - 1];
      assert WordTo(p, text[1..], k - 1);
    }
    if text != "" && Fits(c, text[0]) && Here(p, text[1..]) {
      var k: nat :| k <= |text[1..]| && WordTo(p, text[1..], k);
      assert text[..k + 1][1..] == text[1..][..k];
      assert WordTo(q, text, k + 1);
    }
  }

  // A star takes some characters, and the rest of the pattern follows.
  ghost predicate After(c: char, p: Pattern, text: string, j: nat)
    requires j <= |text|
  {
    AllFit(c, text[..j]) && Here(p, text[j..])
  }

  ghost predicate StarHere(c: char, p: Pattern, text: string) {
    exists j: nat :: j <= |text| && After(c, p, text, j)
  }

  lemma HereStar(c: char, p: Pattern, text: string)
    ensures Here(Pattern([Star(c)] + p.items, p.end), text) <==> StarHere(c, p, text)
  {
    var q := Pattern([Star(c)] + p.items, p.end);
    assert q.items[1..] == p.items;
    if Here(q, text) {
      var k: nat :| k <= |text| && WordTo(q, text, k);
      var w := text[..k];
      var j :| 0 <= j <= |w| && AllFit(c, w[..j]) && Word(p.items, w[j..]);
      assert w[..j] == text[..j] && w[j..] == text[j..][..k - j];
      assert WordTo(p, text[j..], k - j);
      assert After(c, p, text, j);
    }
    if StarHere(c, p, text) {
      var j: nat :| j <= |text| && After(c, p, text, j);
      var k: nat :| k <= |text[j..]| && WordTo(p, text[j..], k);
      var w := text[..j + k];
      assert w[..j] == text[..j] && w[j..] == text[j..][..k];
      assert WordTo(q, text, j + k);
    }
  }

  method Match(re: string, text: string) returns (r: bool)
    ensures r == Matches(re, text)
  {
    if re != "" && re[0] == '^' {
      r := MatchHere(re[1..], text);
      return;
    }
    var i := 0;
    while true
      invariant 0 <= i <= |text| && forall j :: 0 <= j < i ==> !Here(Parse(re), text[j..])
      decreases |text| - i
    {
      var here := MatchHere(re, text[i..]);
      if here {
        return true;
      }
      if i == |text| {
        return false;
      }
      i := i + 1;
    }
  }

  method MatchHere(re: string, text: string) returns (r: bool)
    ensures r == Here(Parse(re), text)
    decreases |re|, |text|, 1
  {
    if re == "" {
      HereEmpty(text);
      return true;
    }
    if |re| >= 2 && re[1] == '*' {
      ghost var p := Parse(re[2..]);
      HereStar(re[0], p, text);
      assert Parse(re) == Pattern([Star(re[0])] + p.items, p.end);
      r := MatchStar(re[0], re[2..], text);
      return;
    }
    if re == "$" {
      HereEnd(text);
      return text == "";
    }
    HereOne(re[0], Parse(re[1..]), text);
    if text != "" && (re[0] == '.' || re[0] == text[0]) {
      r := MatchHere(re[1..], text[1..]);
      return;
    }
    return false;
  }

  method MatchStar(c: char, re: string, text: string) returns (r: bool)
    ensures r == StarHere(c, Parse(re), text)
    decreases |re| + 1, |text|, 0
  {
    var i := 0;
    while true
      invariant 0 <= i <= |text| && AllFit(c, text[..i]) && forall j: nat :: j < i ==> !After(c, Parse(re), text, j)
      decreases |text| - i
    {
      var here := MatchHere(re, text[i..]);
      if here {
        assert After(c, Parse(re), text, i);
        return true;
      }
      if i == |text| || !(text[i] == c || c == '.') {
        NoneAfter(c, Parse(re), text, i);
        return false;
      }
      assert AllFit(c, text[..i + 1]) by {
        assert text[..i + 1] == text[..i] + [text[i]];
      }
      i := i + 1;
    }
  }

  lemma NoneAfter(c: char, p: Pattern, text: string, i: nat)
    requires i <= |text| && (i < |text| ==> !Fits(c, text[i])) && forall j: nat :: j < i ==> !After(c, p, text, j)
    requires !Here(p, text[i..])
    ensures forall j: nat :: j <= |text| ==> !After(c, p, text, j)
  {
    forall j: nat | j <= |text| ensures !After(c, p, text, j) {
      if j > i {
        assert text[..j][i] == text[i];
      }
    }
  }

  // ---- patterns as they are written ----

  function Show(p: Pattern): string
    decreases |p.items|
  {
    if p.items == [] then (if p.end then "$" else "")
    else
      (match p.items[0] case One(c) => [c] case Star(c) => [c, '*']) + Show(Pattern(p.items[1..], p.end))
  }

  // A star as a character cannot be written except at the beginning, nor a final dollar sign.
  predicate Writable(p: Pattern) {
    && (forall k :: 0 < k < |p.items| ==> p.items[k].c != '*')
    && (p.items != [] && !p.end ==> p.items[|p.items| - 1] != One('$'))
  }

  // Reading a pattern undoes writing it.
  lemma {:induction false} ParseShow(p: Pattern)
    requires Writable(p)
    ensures Parse(Show(p)) == p
    decreases |p.items|
  {
    if p.items != [] {
      var rest := Pattern(p.items[1..], p.end);
      ParseShow(rest);
      var first := match p.items[0] case One(c) => [c] case Star(c) => [c, '*'];
      assert Show(p) == first + Show(rest) && Show(p)[|first|..] == Show(rest);
      assert rest.items != [] ==> Show(rest)[0] == rest.items[0].c;
      assert p.items == [p.items[0]] + rest.items;
    }
  }

  // No character of w means anything but itself.
  predicate Literal(w: string) {
    forall k :: 0 <= k < |w| ==> w[k] != '.' && w[k] != '*' && w[k] != '$' && w[k] != '^'
  }

  function Ones(w: string): (r: seq<Item>)
    ensures |r| == |w|
  {
    seq(|w|, k requires 0 <= k < |w| => One(w[k]))
  }

  lemma {:induction false} LiteralParse(w: string, end: bool)
    requires Literal(w)
    ensures Parse(w + if end then "$" else "") == Pattern(Ones(w), end)
    decreases |w|
  {
    var re := w + if end then "$" else "";
    if w != "" {
      LiteralParse(w[1..], end);
      assert re[1..] == w[1..] + if end then "$" else "";
      assert Ones(w) == [One(w[0])] + Ones(w[1..]);
    }
  }

  lemma {:induction false} LiteralHere(w: string, end: bool, text: string)
    requires Literal(w)
    ensures Here(Pattern(Ones(w), end), text) <==> if end then text == w else w <= text
    decreases |w|
  {
    if w == "" {
      assert Ones(w) == [];
      HereEmpty(text);
      HereEnd(text);
    } else {
      var p := Pattern(Ones(w[1..]), end);
      assert Ones(w) == [One(w[0])] + Ones(w[1..]);
      HereOne(w[0], p, text);
      if text != "" {
        LiteralHere(w[1..], end, text[1..]);
        assert w == [w[0]] + w[1..] && text == [text[0]] + text[1..];
      }
    }
  }

  // A pattern of ordinary characters is searched for: anywhere, at the beginning with ^, at the
  // end with $, and as the whole line with both.
  lemma LiteralLaw(w: string, text: string)
    requires Literal(w)
    ensures Matches(w, text) <==> exists i :: 0 <= i <= |text| && w <= text[i..]
    ensures Matches("^" + w, text) <==> w <= text
    ensures Matches(w + "$", text) <==> |w| <= |text| && text[|text| - |w|..] == w
    ensures Matches("^" + w + "$", text) <==> text == w
  {
    hide Parse, Here, Ones;
    LiteralParse(w, false);
    LiteralParse(w, true);
    assert w + "" == w && ("^" + w)[1..] == w && ("^" + w + "$")[1..] == w + "$";
    forall t: string ensures Here(Pattern(Ones(w), false), t) <==> w <= t {
      LiteralHere(w, false, t);
    }
    forall t: string ensures Here(Pattern(Ones(w), true), t) <==> t == w {
      LiteralHere(w, true, t);
    }
    assert w != "" ==> (w + "$")[0] == w[0];
    if |w| <= |text| && text[|text| - |w|..] == w {
      assert Here(Parse(w + "$"), text[|text| - |w|..]);
    }
  }
}
