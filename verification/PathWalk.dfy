// Path names and their resolution (skipelem and namex in kernel/fs.c).
module PathWalk {
  import opened Wrappers

  const DIRSIZ: nat := 14
  const MAXPATH: nat := 128
  const ROOT: nat := 1

  // ---- elements of a path ----

  // The maximal runs of characters other than '/'.
  function Elements(s: string): (r: seq<string>)
    ensures s != "" && s[0] != '/' ==> r != []
  {
    if s == "" then []
    else if s[0] == '/' then Elements(s[1..])
    else if |s| == 1 || s[1] == '/' then [[s[0]]] + Elements(s[1..])
    else var r := Elements(s[1..]); [[s[0]] + r[0]] + r[1..]
  }

  // A directory entry holds DIRSIZ characters of a name.
  function Truncated(name: string): string {
    if |name| >= DIRSIZ then name[..DIRSIZ] else name
  }

  function Names(elements: seq<string>): (r: seq<string>)
    ensures |r| == |elements| && forall i :: 0 <= i < |r| ==> r[i] == Truncated(elements[i])
  {
    seq(|elements|, i requires 0 <= i < |elements| => Truncated(elements[i]))
  }

  function Components(path: string): seq<string> {
    Names(Elements(path))
  }

  // A string without its leading slashes.
  function DropSlashes(s: string): (r: string)
    ensures |r| <= |s| && (r != "" ==> r[0] != '/')
  {
    if s != "" && s[0] == '/' then DropSlashes(s[1..]) else s
  }

  // A string without its leading characters other than '/'.
  function DropName(s: string): (r: string)
    ensures |r| <= |s|
  {
    if s != "" && s[0] != '/' then DropName(s[1..]) else s
  }

  // What follows the first element of a path, without the slashes in between.
  function After(path: string): (r: string)
    ensures |r| <= |path| && (DropSlashes(path) != "" ==> |r| < |path|)
  {
    DropSlashes(DropName(DropSlashes(path)))
  }

  predicate NoSlash(s: string) {
    forall k :: 0 <= k < |s| ==> s[k] != '/'
  }

  lemma {:induction false} SkipSlashes(s: string, i: nat)
    requires i <= |s| && forall k :: 0 <= k < i ==> s[k] == '/'
    ensures Elements(s) == Elements(s[i..])
  {
    if i > 0 {
      SkipSlashes(s[1..], i - 1);
      assert s[1..][i - 1..] == s[i..];
    } else {
      assert s[0..] == s;
    }
  }

  lemma {:induction false} FirstElement(s: string, i: nat)
    requires 0 < i <= |s| && NoSlash(s[..i]) && (i < |s| ==> s[i] == '/')
    ensures Elements(s) == [s[..i]] + Elements(s[i..])
  {
    assert s[0] == s[..i][0];
    if i == 1 {
      assert s[..1] == [s[0]];
    } else {
      assert s[1] == s[..i][1];
      assert s[1..][..i - 1] == s[..i][1..];
      FirstElement(s[1..], i - 1);
      assert s[1..][i - 1..] == s[i..];
      assert [s[0]] + s[1..][..i - 1] == s[..i];
    }
  }

  // The law that makes splicing a link target into a path right.
  lemma {:induction false} ElementsConcat(a: string, b: string)
    ensures Elements(a + "/" + b) == Elements(a) + Elements(b)
  {
    var s := a + "/" + b;
    if a == "" {
      assert s[1..] == b;
    } else {
      ElementsConcat(a[1..], b);
      assert s[1..] == a[1..] + "/" + b;
      assert |a| > 1 ==> s[1] == a[1];
      assert |a| == 1 ==> s[1] == '/';
    }
  }

  lemma ComponentsConcat(a: string, b: string)
    ensures Components(a + "/" + b) == Components(a) + Components(b)
  {
    ElementsConcat(a, b);
  }

  lemma {:induction false} SlashesDropped(s: string, i: nat)
    requires i <= |s| && (forall k :: 0 <= k < i ==> s[k] == '/') && (i < |s| ==> s[i] != '/')
    ensures DropSlashes(s) == s[i..]
  {
    if i > 0 {
      SlashesDropped(s[1..], i - 1);
      assert s[1..][i - 1..] == s[i..];
    } else {
      assert s[0..] == s;
    }
  }

  lemma {:induction false} NameDropped(s: string, i: nat)
    requires i <= |s| && NoSlash(s[..i]) && (i < |s| ==> s[i] == '/')
    ensures DropName(s) == s[i..]
  {
    if i > 0 {
      assert s[0] == s[..i][0];
      assert s[1..][..i - 1] == s[..i][1..];
      NameDropped(s[1..], i - 1);
      assert s[1..][i - 1..] == s[i..];
    } else {
      assert s[0..] == s;
    }
  }

  // A path that starts, after i slashes, with an element of n characters.
  lemma FirstComponent(path: string, i: nat, n: nat, j: nat)
    requires i + n <= i + j <= |path| && n > 0 && forall k :: 0 <= k < i ==> path[k] == '/'
    requires NoSlash(path[i..][..n]) && (i + n < |path| ==> path[i + n] == '/')
    requires (forall k :: i + n <= k < i + j ==> path[k] == '/') && (i + j < |path| ==> path[i + j] != '/')
    ensures Components(path) == [Truncated(path[i..][..n])] + Components(path[i + j..])
    ensures path[i + j..] == "" <==> |Components(path)| == 1
    ensures After(path) == path[i + j..] && DropSlashes(path) != ""
  {
    hide Elements, DropSlashes, DropName;
    var s := path[i..];
    SlashesDropped(path, i);
    NameDropped(s, n);
    SlashesDropped(s[n..], j - n);
    SkipSlashes(path, i);
    FirstElement(s, n);
    SkipSlashes(s[n..], j - n);
    assert s[n..][j - n..] == path[i + j..];
    NoElements(path[i + j..]);
  }

  lemma NoElements(s: string)
    requires s != "" ==> s[0] != '/'
    ensures Elements(s) == [] <==> s == ""
  {
  }

  // The next path element and what follows it; None if there is no element left.
  method SkipElem(path: string) returns (r: Option<(string, string)>)
    ensures r.None? <==> Components(path) == []
    ensures r.None? <==> DropSlashes(path) == ""
    ensures r.Some? ==>
      && r.value.1 == After(path) && Components(path) == [r.value.0] + Components(r.value.1) && |r.value.1| < |path|
      && (r.value.1 != "" ==> r.value.1[0] != '/') && (r.value.1 == "" <==> |Components(path)| == 1)
  {
    hide Components, After, DropSlashes;
    var i := 0;
    while i < |path| && path[i] == '/'
      invariant i <= |path| && forall k :: 0 <= k < i ==> path[k] == '/'
    {
      i := i + 1;
    }
    if i == |path| {
      NoComponents(path);
      return None;
    }
    var s := path[i..];
    var n := 0;
    while n < |s| && s[n] != '/'
      invariant n <= |s| && NoSlash(s[..n])
    {
      n := n + 1;
    }
    var name := if n >= DIRSIZ then s[..DIRSIZ] else s[..n];
    var j := n;
    while j < |s| && s[j] == '/'
      invariant n <= j <= |s| && forall k :: i + n <= k < i + j ==> path[k] == '/'
    {
      j := j + 1;
    }
    FirstComponent(path, i, n, j);
    assert DIRSIZ <= n ==> s[..n][..DIRSIZ] == s[..DIRSIZ];
    return Some((name, s[j..]));
  }

  lemma NoComponents(path: string)
    requires forall k :: 0 <= k < |path| ==> path[k] == '/'
    ensures Components(path) == [] && DropSlashes(path) == ""
  {
    SkipSlashes(path, |path|);
    SlashesDropped(path, |path|);
  }

  // ---- resolution ----

  datatype Node =
    | Dir(entries: map<string, nat>, readable: bool)
    | File
    | Symlink(target: string)

  // Every name leads to an inode; the root and the current directory are directories.
  ghost predicate Sound(tree: map<nat, Node>, cwd: nat) {
    && ROOT in tree && tree[ROOT].Dir? && cwd in tree && tree[cwd].Dir?
    && forall i, name :: i in tree && tree[i].Dir? && name in tree[i].entries ==> tree[i].entries[name] in tree
  }

  // The inode a path starts from.
  function Start(path: string, cwd: nat): nat {
    if path != "" && path[0] == '/' then ROOT else cwd
  }

  // links: the symbolic links gone through, in order.
  datatype Outcome =
    | Endless
    | Nothing(links: seq<nat>)
    | Found(inum: nat, name: string, links: seq<nat>)

  function Via(link: nat, o: Outcome): Outcome {
    match o
    case Endless => Endless
    case Nothing(links) => Nothing([link] + links)
    case Found(i, name, links) => Found(i, name, [link] + links)
  }

  // What some components lead to from inode ip: with parent, the directory of the last one
  // and its name.  A link stands for the components of its target.  Endless if more than n
  // links are gone through.
  function Resolve(tree: map<nat, Node>, cwd: nat, ip: nat, comps: seq<string>, parent: bool, n: nat): Outcome
    decreases n, |comps|, 1
  {
    if comps != [] then ResolveFrom(tree, cwd, ip, comps[0], comps[1..], parent, n)
    else if parent then Nothing([])
    else Found(ip, "", [])
  }

  function ResolveFrom(tree: map<nat, Node>, cwd: nat, ip: nat, name: string, more: seq<string>, parent: bool,
                       n: nat): Outcome
    decreases n, |more| + 1, 0
  {
    if ip !in tree || !tree[ip].Dir? || !tree[ip].readable then Nothing([])
    else if parent && more == [] then Found(ip, name, [])
    else if name !in tree[ip].entries then Nothing([])
    else
      var next := tree[ip].entries[name];
      if next in tree && tree[next].Symlink? then
        if n == 0 then Endless
        else
          var t := Target(tree[next]);
          Via(next, Resolve(tree, cwd, Start(t + "/", cwd), Components(t) + more, parent, n - 1))
      else Resolve(tree, cwd, next, more, parent, n)
  }

  lemma ResolveCons(tree: map<nat, Node>, cwd: nat, ip: nat, name: string, more: seq<string>, parent: bool, n: nat)
    ensures Resolve(tree, cwd, ip, [name] + more, parent, n) == ResolveFrom(tree, cwd, ip, name, more, parent, n)
  {
  }

  // What readi returns of a link's target.
  function Target(node: Node): string
    requires node.Symlink?
  {
    if |node.target| > MAXPATH - 1 then node.target[..MAXPATH - 1] else node.target
  }

  // Whether a walk is given up because a path with a link target spliced in would be too long.
  ghost predicate Overruns(tree: map<nat, Node>, cwd: nat, ip: nat, path: string, parent: bool, n: nat)
    decreases n, |path|
  {
    DropSlashes(path) != "" && Components(path) != []
        && OverrunsFrom(tree, cwd, ip, Components(path)[0], After(path), parent, n)
  }

  ghost predicate OverrunsFrom(tree: map<nat, Node>, cwd: nat, ip: nat, name: string, rest: string, parent: bool,
                               n: nat)
    decreases n, |rest| + 1, 0
  {
    && ip in tree && tree[ip].Dir? && tree[ip].readable && !(parent && rest == "") && name in tree[ip].entries
    && var next := tree[ip].entries[name];
      if next in tree && tree[next].Symlink? then
        var path := Target(tree[next]) + "/" + rest;
        |path| >= MAXPATH || (n > 0 && Overruns(tree, cwd, Start(path, cwd), path, parent, n - 1))
      else Overruns(tree, cwd, next, rest, parent, n)
  }

  // What becomes of a walk along a path from ip: given up, or what its components lead to.
  datatype Fate = TooLong | Leads(outcome: Outcome)

  ghost function FateOf(tree: map<nat, Node>, cwd: nat, ip: nat, path: string, parent: bool, n: nat): Fate {
    if Overruns(tree, cwd, ip, path, parent, n) then TooLong
        else Leads(Resolve(tree, cwd, ip, Components(path), parent, n))
  }

  // The result r of a walk and the links it went through agree with its fate.
  ghost predicate Answers(fate: Fate, r: Option<(nat, string)>, parent: bool, links: seq<nat>) {
    match fate
    case TooLong => r.None?
    case Leads(outcome) => outcome == OutcomeOf(r, parent, links)
  }

  // A walk to an inode itself never ends at a link.
  lemma {:induction false} NotALink(tree: map<nat, Node>, cwd: nat, ip: nat, comps: seq<string>, n: nat)
    requires Sound(tree, cwd) && ip in tree && !tree[ip].Symlink?
    ensures var o := Resolve(tree, cwd, ip, comps, false, n);
      o.Found? ==> o.inum in tree && !tree[o.inum].Symlink?
    decreases n, |comps|
  {
    if comps != [] && tree[ip].Dir? && comps[0] in tree[ip].entries {
      var next := tree[ip].entries[comps[0]];
      if tree[next].Symlink? {
        if n > 0 {
          var t := Target(tree[next]);
          NotALink(tree, cwd, Start(t + "/", cwd), Components(t) + comps[1..], n - 1);
        }
      } else {
        NotALink(tree, cwd, next, comps[1..], n);
      }
    }
  }

  // A walk to a parent ends at a readable directory.
  lemma {:induction false} ParentIsDir(tree: map<nat, Node>, cwd: nat, ip: nat, comps: seq<string>, n: nat)
    requires Sound(tree, cwd) && ip in tree
    ensures var o := Resolve(tree, cwd, ip, comps, true, n);
      o.Found? ==> o.inum in tree && tree[o.inum].Dir? && tree[o.inum].readable
    decreases n, |comps|
  {
    if comps != [] && tree[ip].Dir? && comps[0] in tree[ip].entries {
      var next := tree[ip].entries[comps[0]];
      if tree[next].Symlink? {
        if n > 0 {
          var t := Target(tree[next]);
          ParentIsDir(tree, cwd, Start(t + "/", cwd), Components(t) + comps[1..], n - 1);
        }
      } else {
        ParentIsDir(tree, cwd, next, comps[1..], n);
      }
    }
  }

  // An outcome reached after going through some links first.
  function Further(links: seq<nat>, o: Outcome): Outcome {
    match o
    case Endless => Endless
    case Nothing(more) => Nothing(links + more)
    case Found(i, name, more) => Found(i, name, links + more)
  }

  // A walk goes on from where its first part leads, with what is left of its links.
  ghost predicate GoesOn(tree: map<nat, Node>, cwd: nat, first: Outcome, b: seq<string>, parent: bool, n: nat,
                         whole: Outcome) {
    match first
    case Endless => whole == Endless
    case Nothing(links) => whole == Nothing(links)
    case Found(i, _, links) =>
      |links| <= n && whole == Further(links, Resolve(tree, cwd, i, b, parent, n - |links|))
  }

  lemma GoesOnVia(tree: map<nat, Node>, cwd: nat, first: Outcome, b: seq<string>, parent: bool, n: nat,
                  whole: Outcome, link: nat)
    requires n > 0 && GoesOn(tree, cwd, first, b, parent, n - 1, whole)
    ensures GoesOn(tree, cwd, Via(link, first), b, parent, n, Via(link, whole))
  {
    hide Resolve;
    if first.Found? {
      var o := Resolve(tree, cwd, first.inum, b, parent, n - 1 - |first.links|);
      assert !o.Endless? ==> [link] + (first.links + o.links) == [link] + first.links + o.links;
    }
  }

  // Walking a path in two parts.
  lemma {:induction false} ResolveConcat(tree: map<nat, Node>, cwd: nat, ip: nat, a: seq<string>, b: seq<string>,
                                         parent: bool, n: nat)
    requires b != []
    ensures GoesOn(tree, cwd, Resolve(tree, cwd, ip, a, false, n), b, parent, n,
                   Resolve(tree, cwd, ip, a + b, parent, n))
    decreases n, |a|
  {
    if a == [] {
      assert a + b == b;
      FurtherNone(Resolve(tree, cwd, ip, b, parent, n));
    } else {
      var more := a[1..];
      assert a + b == [a[0]] + (more + b) && a == [a[0]] + more;
      ResolveCons(tree, cwd, ip, a[0], more + b, parent, n);
      ResolveCons(tree, cwd, ip, a[0], more, false, n);
      if ip in tree && tree[ip].Dir? && tree[ip].readable && a[0] in tree[ip].entries {
        var next := tree[ip].entries[a[0]];
        if next in tree && tree[next].Symlink? {
          if n > 0 {
            var t := Target(tree[next]);
            var start, c := Start(t + "/", cwd), Components(t) + more;
            ResolveConcat(tree, cwd, start, c, b, parent, n - 1);
            assert Components(t) + (more + b) == c + b;
            GoesOnVia(tree, cwd, Resolve(tree, cwd, start, c, false, n - 1), b, parent, n,
                      Resolve(tree, cwd, start, c + b, parent, n - 1), next);
          }
        } else {
          ResolveConcat(tree, cwd, next, more, b, parent, n);
        }
      }
    }
  }

  lemma FurtherNone(o: Outcome)
    ensures Further([], o) == o
  {
    assert !o.Endless? ==> [] + o.links == o.links;
  }

  // A path that does not begin with a slash is walked like the one with the path of the
  // current directory before it, and one that does wherever the walk is made from.
  lemma RelativePath(tree: map<nat, Node>, cwd: nat, dir: string, path: string, parent: bool, n: nat)
    requires dir != "" && dir[0] == '/' && Components(path) != []
    ensures var o := Resolve(tree, cwd, Start(dir, cwd), Components(dir), false, n);
      var whole := dir + "/" + path;
      && (path[0] != '/' && o.Found? && o.inum == cwd ==>
            && |o.links| <= n
            && Resolve(tree, cwd, Start(whole, cwd), Components(whole), parent, n)
            == Further(o.links, Resolve(tree, cwd, Start(path, cwd), Components(path), parent, n - |o.links|)))
      && Start(whole, cwd) == ROOT
  {
    hide Components, Resolve;
    var whole := dir + "/" + path;
    ComponentsConcat(dir, path);
    ResolveConcat(tree, cwd, ROOT, Components(dir), Components(path), parent, n);
    assert whole[0] == '/';
  }

  // The inodes in which a walk would look a name up if permissions did not matter.
  function Visited(tree: map<nat, Node>, cwd: nat, ip: nat, comps: seq<string>, parent: bool, n: nat): seq<nat>
    decreases n, |comps|
  {
    if comps == [] then []
    else if (parent && |comps| == 1) || ip !in tree || !tree[ip].Dir? || comps[0] !in tree[ip].entries then [ip]
    else
      var next := tree[ip].entries[comps[0]];
      [ip] + if next !in tree || !tree[next].Symlink? then Visited(tree, cwd, next, comps[1..], parent, n)
             else if n == 0 then []
             else
               var t := Target(tree[next]);
               Visited(tree, cwd, Start(t + "/", cwd), Components(t) + comps[1..], parent, n - 1)
  }

  // A walk that finds something passes only through readable directories.
  lemma {:induction false} OnlyReadable(tree: map<nat, Node>, cwd: nat, ip: nat, comps: seq<string>, parent: bool,
                                        n: nat)
    requires Resolve(tree, cwd, ip, comps, parent, n).Found?
    ensures forall d :: d in Visited(tree, cwd, ip, comps, parent, n) ==> d in tree && tree[d].Dir? && tree[d].readable
    decreases n, |comps|
  {
    if comps != [] && !(parent && |comps| == 1) {
      var next := tree[ip].entries[comps[0]];
      if next in tree && tree[next].Symlink? {
        var t := Target(tree[next]);
        OnlyReadable(tree, cwd, Start(t + "/", cwd), Components(t) + comps[1..], parent, n - 1);
      } else {
        OnlyReadable(tree, cwd, next, comps[1..], parent, n);
      }
    }
  }

  function Occurs(s: seq<nat>, i: nat): nat {
    multiset(s)[i]
  }

  function Plus(refs: map<nat, int>, i: nat): map<nat, int> { if i in refs then refs[i := refs[i] + 1] else refs }
  function Minus(refs: map<nat, int>, i: nat): map<nat, int> { if i in refs then refs[i := refs[i] - 1] else refs }

  class Walker {
    const tree: map<nat, Node>
    const cwd: nat
    var refs: map<nat, int>          // ip->ref, for every inode

    ghost predicate Valid()
      reads this
    {
      Sound(tree, cwd) && refs.Keys == tree.Keys
    }

    constructor (tree: map<nat, Node>, cwd: nat, refs: map<nat, int>)
      requires Sound(tree, cwd) && refs.Keys == tree.Keys
      ensures Valid() && this.tree == tree && this.cwd == cwd && this.refs == refs
    {
      this.tree, this.cwd, this.refs := tree, cwd, refs;
    }

    method Iget(i: nat)
      requires Valid() && i in tree
      modifies `refs
      ensures Valid() && refs == Plus(old(refs), i)
    {
      refs := refs[i := refs[i] + 1];
    }

    method Iput(i: nat)
      requires Valid() && i in tree
      modifies `refs
      ensures Valid() && refs == Minus(old(refs), i)
    {
      refs := refs[i := refs[i] - 1];
    }

    // namex.  n bounds the links of the walk.
    method Namex(path: string, parent: bool, ghost n: nat) returns (r: Option<(nat, string)>, ghost links: seq<nat>)
      requires Valid() && FateOf(tree, cwd, Start(path, cwd), path, parent, n) != Leads(Endless)
      modifies `refs
      ensures Valid() && Accounted(tree, old(refs), refs, r, links)
      ensures Answers(FateOf(tree, cwd, Start(path, cwd), path, parent, n), r, parent, links)
      decreases n, 1
    {
      hide Components, Names, Elements, After, DropSlashes, Accounted, Sound, Start, Plus, Minus, Target, FateOf,
           Answers, Overruns, Resolve, OutcomeOf;
      SoundFacts(tree, cwd);
      StartIs(path, cwd);
      var ip := if path != "" && path[0] == '/' then ROOT else cwd;
      Iget(ip);
      var rest, name := path, "";
      while true
        invariant Valid() && ip in tree && refs == Plus(old(refs), ip)
        invariant FateOf(tree, cwd, Start(path, cwd), path, parent, n) == FateOf(tree, cwd, ip, rest, parent, n)
        decreases |rest|
      {
        var elem := SkipElem(rest);
        if elem.None? {
          break;
        }
        StopHere(tree, cwd, ip, rest, elem.value.0, elem.value.1, parent, n);
        GoOn(tree, cwd, ip, rest, elem.value.0, elem.value.1, parent, n);
        name, rest := elem.value.0, elem.value.1;
        AccountStop(tree, old(refs), ip, name);
        if !tree[ip].Dir? || !tree[ip].readable {
          Iput(ip);
          return None, [];
        }
        if parent && rest == "" {
          return Some((ip, name)), [];
        }
        if name !in tree[ip].entries {
          Iput(ip);
          return None, [];
        }
        SoundEntry(tree, cwd, ip, name);
        var next := tree[ip].entries[name];
        MoveRef(old(refs), ip, next);
        Iget(next);
        Iput(ip);
        ip := next;
        if tree[ip].Symlink? {
          AccountStop(tree, old(refs), ip, "");
          r, links := Follow(ip, rest, parent, n, FateOf(tree, cwd, Start(path, cwd), path, parent, n));
          return;
        }
      }
      AccountStop(tree, old(refs), ip, name);
      StopAtEnd(tree, cwd, ip, rest, parent, n, name);
      if parent {
        Iput(ip);
        return None, [];
      }
      return Some((ip, name)), [];
    }

    // The part of namex that follows a link: the walk f goes on along the link's target, with
    // the rest of the path behind it.
    method Follow(link: nat, rest: string, parent: bool, ghost n: nat, ghost f: Fate)
      returns (r: Option<(nat, string)>, ghost links: seq<nat>)
      requires Valid() && link in tree && tree[link].Symlink? && f != Leads(Endless)
      requires Spliced(tree, cwd, f, link, Target(tree[link]) + "/" + rest, parent, n)
      modifies `refs
      ensures Valid() && Accounted(tree, Minus(old(refs), link), refs, r, links) && Answers(f, r, parent, links)
      decreases n, 0
    {
      hide Components, Accounted, Sound, Start, Plus, Minus, Target, FateOf, Answers;
      var target := Target(tree[link]);
      Iput(link);
      ghost var before := refs;
      if |target| + 1 + |rest| >= MAXPATH {
        AccountNone(tree, before);
        return None, [];
      }
      Iput(link);
      r, links := Namex(target + "/" + rest, parent, n - 1);
      AccountLink(tree, before, refs, r, links, link);
      links := [link] + links;
    }

    // namei: the path is walked twice, and only the second result is handed out; the first walk
    // does not end at a link, so the loop between the two has nothing to do.
    method Namei(path: string, ghost n: nat) returns (r: Option<nat>, ghost links: seq<nat>)
      requires Valid() && FateOf(tree, cwd, Start(path, cwd), path, false, n) != Leads(Endless)
      modifies `refs
      ensures Valid() && WalkedTwice(tree, old(refs), refs, r, links)
      ensures match FateOf(tree, cwd, Start(path, cwd), path, false, n)
        case TooLong => r.None?
        case Leads(Nothing(via)) => r.None? && links == via + via
        case Leads(Found(i, _, via)) => r == Some(i) && i in tree && !tree[i].Symlink? && links == via + via
        case Leads(Endless) => true
    {
      hide Components, Resolve, Overruns, Accounted, Sound, FateOf, Start;
      ghost var refs0 := refs;
      var first, via := Namex(path, false, n);
      ghost var refs1 := refs;
      WalkEnd(tree, cwd, path, n);
      var second, again := Namex(path, false, n);
      links := via + again;
      AccountTwice(tree, refs0, refs1, refs, first, second, via, again);
      if second.None? {
        return None, links;
      }
      return Some(second.value.0), links;
    }

    // sys_chmod of an existing path puts one of the two references: every call leaves one more on
    // the inode, which then never leaves the table of inodes.
    method SysChmod(path: string, ghost n: nat) returns (r: Option<nat>, ghost links: seq<nat>)
      requires Valid() && FateOf(tree, cwd, Start(path, cwd), path, false, n) != Leads(Endless)
      modifies `refs
      ensures Valid() && (r.Some? ==> r.value in tree)
      ensures forall i :: i in tree ==>
        refs[i] == old(refs)[i] + (if r == Some(i) then 1 else 0) - Occurs(links, i)
    {
      hide Sound, FateOf, Start;
      r, links := Namei(path, n);
      if r.Some? {
        TwiceIn(tree, old(refs), refs, r, links);
        Iput(r.value);
      }
    }
  }

  function OutcomeOf(r: Option<(nat, string)>, parent: bool, links: seq<nat>): Outcome {
    match r
    case None => Nothing(links)
    case Some((i, name)) => Found(i, if parent then name else "", links)
  }

  lemma StartIs(path: string, cwd: nat)
    ensures Start(path, cwd) == if path != "" && path[0] == '/' then ROOT else cwd
  {
  }

  // Where a walk stops: at the end of the path,
  lemma StopAtEnd(tree: map<nat, Node>, cwd: nat, ip: nat, path: string, parent: bool, n: nat, name: string)
    requires Components(path) == [] && DropSlashes(path) == ""
    ensures Answers(FateOf(tree, cwd, ip, path, parent, n), if parent then None else Some((ip, name)), parent, [])
  {
    hide Components, DropSlashes;
  }

  // A path with a first element.
  ghost predicate Starts(path: string, name: string, rest: string) {
    && DropSlashes(path) != "" && rest == After(path) && Components(path) == [name] + Components(rest)
    && (rest == "" <==> |Components(path)| == 1)
  }

  // or before its last or an unknown element.
  lemma StopHere(tree: map<nat, Node>, cwd: nat, ip: nat, path: string, name: string, rest: string, parent: bool,
                 n: nat)
    requires ip in tree && Starts(path, name, rest)
    ensures var f := FateOf(tree, cwd, ip, path, parent, n);
      if !tree[ip].Dir? || !tree[ip].readable then Answers(f, None, parent, [])
      else if parent && rest == "" then Answers(f, Some((ip, name)), parent, [])
      else name !in tree[ip].entries ==> Answers(f, None, parent, [])
  {
    hide Components, DropSlashes, After;
    assert Overruns(tree, cwd, ip, path, parent, n) == OverrunsFrom(tree, cwd, ip, name, rest, parent, n);
    ResolveCons(tree, cwd, ip, name, Components(rest), parent, n);
  }

  // Where it goes on: at the next inode, or at the target of a link with the rest behind it.
  lemma GoOn(tree: map<nat, Node>, cwd: nat, ip: nat, path: string, name: string, rest: string, parent: bool, n: nat)
    requires ip in tree && Starts(path, name, rest)
    ensures
      && tree[ip].Dir? && tree[ip].readable && name in tree[ip].entries && tree[ip].entries[name] in tree
      && !(parent && rest == "") ==>
      var f, next := FateOf(tree, cwd, ip, path, parent, n), tree[ip].entries[name];
      if tree[next].Symlink? then Spliced(tree, cwd, f, next, Target(tree[next]) + "/" + rest, parent, n)
      else f == FateOf(tree, cwd, next, rest, parent, n)
  {
    hide Components, Resolve, Overruns, DropSlashes, After;
    OverrunsCons(tree, cwd, ip, path, parent, n);
    ResolveCons(tree, cwd, ip, name, Components(rest), parent, n);
    if tree[ip].Dir? && name in tree[ip].entries {
      var next := tree[ip].entries[name];
      if next in tree && tree[next].Symlink? {
        ComponentsConcat(Target(tree[next]), rest);
      }
    }
  }

  // A walk that meets a link and goes on along path.
  ghost predicate Spliced(tree: map<nat, Node>, cwd: nat, f: Fate, link: nat, path: string, parent: bool, n: nat) {
    if |path| >= MAXPATH then forall links :: Answers(f, None, parent, links)
    else f != Leads(Endless) ==>
      && n > 0 && FateOf(tree, cwd, Start(path, cwd), path, parent, n - 1) != Leads(Endless)
      && forall r, links :: Answers(FateOf(tree, cwd, Start(path, cwd), path, parent, n - 1), r, parent, links) ==>
           Answers(f, r, parent, [link] + links)
  }

  lemma OverrunsCons(tree: map<nat, Node>, cwd: nat, ip: nat, path: string, parent: bool, n: nat)
    ensures Overruns(tree, cwd, ip, path, parent, n) <==>
      DropSlashes(path) != "" && Components(path) != []
          && OverrunsFrom(tree, cwd, ip, Components(path)[0], After(path), parent, n)
  {
  }

  lemma SoundFacts(tree: map<nat, Node>, cwd: nat)
    requires Sound(tree, cwd)
    ensures ROOT in tree && cwd in tree
  {
  }

  lemma SoundEntry(tree: map<nat, Node>, cwd: nat, i: nat, name: string)
    requires Sound(tree, cwd) && i in tree && tree[i].Dir? && name in tree[i].entries
    ensures tree[i].entries[name] in tree
  {
  }

  // The references after a walk: one more to its result, and one less to every link it has
  // gone through, which it puts twice.
  ghost predicate Accounted(tree: map<nat, Node>, before: map<nat, int>, after: map<nat, int>,
                            r: Option<(nat, string)>, links: seq<nat>) {
    && before.Keys == tree.Keys == after.Keys
    && forall i :: i in tree ==>
         after[i] == before[i] + (if r.Some? && r.value.0 == i then 1 else 0) - Occurs(links, i)
  }

  // The same after the two walks of namei.
  ghost predicate WalkedTwice(tree: map<nat, Node>, before: map<nat, int>, after: map<nat, int>, r: Option<nat>,
                              links: seq<nat>) {
    && before.Keys == tree.Keys == after.Keys && (r.Some? ==> r.value in tree)
    && forall i :: i in tree ==> after[i] == before[i] + (if r == Some(i) then 2 else 0) - Occurs(links, i)
  }

  lemma TwiceIn(tree: map<nat, Node>, before: map<nat, int>, after: map<nat, int>, r: Option<nat>, links: seq<nat>)
    requires WalkedTwice(tree, before, after, r, links)
    ensures r.Some? ==> r.value in tree
  {
  }

  // A walk from the start of a path ends at an inode that is not a link.
  lemma WalkEnd(tree: map<nat, Node>, cwd: nat, path: string, n: nat)
    requires Sound(tree, cwd)
    ensures var f := FateOf(tree, cwd, Start(path, cwd), path, false, n);
      f.Leads? && f.outcome.Found? ==> f.outcome.inum in tree && !tree[f.outcome.inum].Symlink?
  {
    hide Components, Resolve, Overruns;
    NotALink(tree, cwd, Start(path, cwd), Components(path), n);
  }

  lemma AccountTwice(tree: map<nat, Node>, m0: map<nat, int>, m1: map<nat, int>, m2: map<nat, int>,
                     first: Option<(nat, string)>, second: Option<(nat, string)>, via: seq<nat>, again: seq<nat>)
    requires Accounted(tree, m0, m1, first, via) && Accounted(tree, m1, m2, second, again)
    requires first.Some? <==> second.Some?
    requires second.Some? ==> first.value.0 == second.value.0 && second.value.0 in tree
    ensures WalkedTwice(tree, m0, m2, if second.Some? then Some(second.value.0) else None, via + again)
  {
    assert multiset(via + again) == multiset(via) + multiset(again);
  }

  // Stopping with or without the reference to ip.
  lemma AccountStop(tree: map<nat, Node>, before: map<nat, int>, ip: nat, name: string)
    requires before.Keys == tree.Keys && ip in tree
    ensures Accounted(tree, before, Plus(before, ip), Some((ip, name)), [])
    ensures Minus(Plus(before, ip), ip) == before && Accounted(tree, before, before, None, [])
  {
    assert ip in before.Keys;
  }

  lemma AccountNone(tree: map<nat, Node>, before: map<nat, int>)
    requires before.Keys == tree.Keys
    ensures Accounted(tree, before, before, None, [])
  {
  }

  // Going from ip to next.
  lemma MoveRef(before: map<nat, int>, ip: nat, next: nat)
    requires ip in before.Keys && next in before.Keys
    ensures Minus(Plus(Plus(before, ip), next), ip) == Plus(before, next)
  {
  }

  lemma AccountLink(tree: map<nat, Node>, before: map<nat, int>, after: map<nat, int>, r: Option<(nat, string)>,
                    links: seq<nat>, ip: nat)
    requires before.Keys == tree.Keys && ip in tree && Accounted(tree, Minus(before, ip), after, r, links)
    ensures Accounted(tree, before, after, r, [ip] + links)
  {
    assert ip in before.Keys;
    assert multiset([ip] + links) == multiset{ip} + multiset(links);
    assert before.Keys == Minus(before, ip).Keys;
  }
}
