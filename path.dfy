/** A model of Go's `path.Clean`, the lexical cleaner the measurement applies
    to relative links. The cleaner is specified by rules on path elements:
    repeated slashes are collapsed, `.` elements are dropped, an inner `..`
    removes the element before it, a `..` at the start of a rooted path is
    dropped, the result ends in a slash only when it is the root, and an
    empty result becomes ".". The model follows those rules element by
    element rather than Go's byte-level loop. */
module Path {

  /** A non-empty run of characters without a slash. */
  predicate IsElement(e: string)
  {
    e != [] && '/' !in e
  }

  /** An element that is neither `.` nor `..`. */
  predicate IsName(e: string)
  {
    IsElement(e) && e != "." && e != ".."
  }

  /** No two slashes next to each other. */
  predicate NoDoubleSlash(s: string)
  {
    forall i :: 0 <= i < |s| - 1 ==> !(s[i] == '/' && s[i + 1] == '/')
  }

  /** Length of the longest prefix of `p` without a slash. */
  function ElementLength(p: string): (n: nat)
    ensures n <= |p|
    ensures forall i :: 0 <= i < n ==> p[i] != '/'
    ensures n < |p| ==> p[n] == '/'
  {
    if p == [] || p[0] == '/' then 0 else 1 + ElementLength(p[1..])
  }

  /** The non-empty elements of `p` between slashes, in order. */
  function Elements(p: string): (es: seq<string>)
    ensures forall i :: 0 <= i < |es| ==> IsElement(es[i])
    decreases |p|
  {
    if p == [] then []
    else if p[0] == '/' then Elements(p[1..])
    else
      var n := ElementLength(p);
      assert '/' !in p[..n] by {
        forall i | 0 <= i < n ensures p[..n][i] != '/' { }
      }
      [p[..n]] + Elements(p[n..])
  }

  /** The elements joined by single slashes. */
  function Join(es: seq<string>): string
  {
    if es == [] then ""
    else if |es| == 1 then es[0]
    else es[0] + "/" + Join(es[1..])
  }

  /** One element applied to the stack of elements kept so far. */
  function Step(stack: seq<string>, e: string, rooted: bool): seq<string>
  {
    if e == "." then stack
    else if e == ".." then
      if stack != [] && stack[|stack| - 1] != ".." then stack[..|stack| - 1]
      else if rooted then stack
      else stack + [".."]
    else stack + [e]
  }

  /** The elements `es` applied from left to right. */
  function Reduce(stack: seq<string>, es: seq<string>, rooted: bool): seq<string>
    decreases |es|
  {
    if es == [] then stack else Reduce(Step(stack, es[0], rooted), es[1..], rooted)
  }

  /** path.Clean */
  function Clean(p: string): string
  {
    if p == [] then "."
    else
      var rooted := p[0] == '/';
      var kept := Reduce([], Elements(p), rooted);
      if rooted then "/" + Join(kept)
      else if kept == [] then "."
      else Join(kept)
  }

  /** A slash followed by the join of some elements has no doubled slash
      and ends in a slash only when there are no elements. */
  lemma RootedJoinShape(es: seq<string>)
    requires forall i :: 0 <= i < |es| ==> IsElement(es[i])
    ensures NoDoubleSlash("/" + Join(es))
    ensures es != [] ==> ("/" + Join(es))[|"/" + Join(es)| - 1] != '/'
    ensures es == [] ==> "/" + Join(es) == "/"
  {
    JoinShape(es);
    var c := "/" + Join(es);
    forall i | 0 <= i < |c| - 1 ensures !(c[i] == '/' && c[i + 1] == '/') {
      if i > 0 {
        assert c[i] == Join(es)[i - 1] && c[i + 1] == Join(es)[i];
      }
    }
  }

  /** What `Reduce` leaves: elements other than `.`, with `..` only in a
      leading run, and no `..` at all in a rooted path. */
  ghost predicate Canonical(st: seq<string>, rooted: bool)
  {
    && (forall i :: 0 <= i < |st| ==> IsElement(st[i]) && st[i] != ".")
    && (forall i, j :: 0 <= i < j < |st| && st[j] == ".." ==> st[i] == "..")
    && (rooted ==> forall i :: 0 <= i < |st| ==> st[i] != "..")
  }

  lemma {:induction false} ReduceKeepsCanonical(stack: seq<string>, es: seq<string>, rooted: bool)
    requires Canonical(stack, rooted)
    requires forall i :: 0 <= i < |es| ==> IsElement(es[i])
    ensures Canonical(Reduce(stack, es, rooted), rooted)
    decreases |es|
  {
    if es != [] {
      var next := Step(stack, es[0], rooted);
      assert Canonical(next, rooted);
      ReduceKeepsCanonical(next, es[1..], rooted);
    }
  }

  /** A stack that is already canonical is reproduced by `Reduce`. */
  lemma {:induction false} ReduceCanonicalIsIdentity(acc: seq<string>, st: seq<string>, rooted: bool)
    requires Canonical(acc + st, rooted)
    ensures Reduce(acc, st, rooted) == acc + st
    decreases |st|
  {
    if st != [] {
      var all := acc + st;
      assert all[|acc|] == st[0];
      if st[0] == ".." {
        assert !rooted;
        if acc != [] {
          assert all[|acc| - 1] == acc[|acc| - 1];
        }
      }
      assert Step(acc, st[0], rooted) == acc + [st[0]];
      assert (acc + [st[0]]) + st[1..] == all;
      ReduceCanonicalIsIdentity(acc + [st[0]], st[1..], rooted);
    }
  }

  lemma {:induction false} ElementLengthOfElement(e: string, rest: string)
    requires IsElement(e)
    requires rest == [] || rest[0] == '/'
    ensures ElementLength(e + rest) == |e|
    decreases |e|
  {
    if |e| > 1 {
      assert (e + rest)[1..] == e[1..] + rest;
      assert e[1] in e;
      ElementLengthOfElement(e[1..], rest);
    }
  }

  /** Splitting joined elements gives the elements back. */
  lemma {:induction false} ElementsOfJoin(es: seq<string>)
    requires forall i :: 0 <= i < |es| ==> IsElement(es[i])
    ensures Elements(Join(es)) == es
    ensures Elements("/" + Join(es)) == es
    decreases |es|
  {
    if es == [] {
      assert Elements("/") == Elements("");
    } else if |es| == 1 {
      ElementLengthOfElement(es[0], "");
      assert es[0] + "" == es[0];
      assert Join(es)[..|es[0]|] == es[0];
      assert Join(es)[|es[0]|..] == "";
      assert ("/" + Join(es))[1..] == Join(es);
    } else {
      var rest := Join(es[1..]);
      var s := es[0] + ("/" + rest);
      assert Join(es) == s;
      ElementLengthOfElement(es[0], "/" + rest);
      assert s[..|es[0]|] == es[0];
      assert s[|es[0]|..] == "/" + rest;
      assert ("/" + rest)[1..] == rest;
      ElementsOfJoin(es[1..]);
      assert ("/" + Join(es))[1..] == Join(es);
    }
  }

  lemma {:induction false} JoinShape(es: seq<string>)
    requires forall i :: 0 <= i < |es| ==> IsElement(es[i])
    ensures NoDoubleSlash(Join(es))
    ensures es != [] ==> Join(es) != [] && Join(es)[0] != '/' && Join(es)[|Join(es)| - 1] != '/'
    decreases |es|
  {
    if |es| == 1 {
      assert es[0][0] in es[0];
      assert es[0][|es[0]| - 1] in es[0];
    } else if |es| > 1 {
      JoinShape(es[1..]);
      var e, rest := es[0], Join(es[1..]);
      var s := e + "/" + rest;
      assert e[0] in e;
      assert e[|e| - 1] in e;
      forall i | 0 <= i < |s| - 1 ensures !(s[i] == '/' && s[i + 1] == '/') {
        if i < |e| - 1 {
          assert s[i] == e[i] && e[i] in e;
        } else if i == |e| - 1 {
          assert s[i] == e[i];
        } else if i == |e| {
          assert s[i + 1] == rest[0];
        } else {
          assert s[i] == rest[i - |e| - 1] && s[i + 1] == rest[i - |e|];
        }
      }
      assert s[|s| - 1] == rest[|rest| - 1];
    }
  }

  /** Cleaning a rooted path (the measurement cleans "/" + link) yields a
      rooted path whose elements are all names, with no doubled slash and
      no trailing slash unless the path is the root itself. */
  lemma CleanRooted(p: string)
    requires p != [] && p[0] == '/'
    ensures var c := Clean(p);
      && c != [] && c[0] == '/'
      && NoDoubleSlash(c)
      && (c != "/" ==> c[|c| - 1] != '/')
      && (forall i :: 0 <= i < |Elements(c)| ==> IsName(Elements(c)[i]))
  {
    var kept := Reduce([], Elements(p), true);
    ReduceKeepsCanonical([], Elements(p), true);
    RootedJoinShape(kept);
    ElementsOfJoin(kept);
  }

  /** Cleaning is idempotent. */
  lemma CleanIdempotent(p: string)
    ensures Clean(Clean(p)) == Clean(p)
  {
    if p != [] {
      var rooted := p[0] == '/';
      var kept := Reduce([], Elements(p), rooted);
      ReduceKeepsCanonical([], Elements(p), rooted);
      ElementsOfJoin(kept);
      JoinShape(kept);
      assert [] + kept == kept;
      ReduceCanonicalIsIdentity([], kept, rooted);
      if !rooted && kept == [] {
        assert Elements(".") == ["."] by {
          assert ElementLength(".") == 1;
          assert "."[..1] == ".";
          assert "."[1..] == [];
        }
        assert Reduce([], ["."], false) == [];
      }
    } else {
      assert Elements(".") == ["."] by {
        assert ElementLength(".") == 1;
        assert "."[..1] == ".";
        assert "."[1..] == [];
      }
      assert Reduce([], ["."], false) == [];
    }
  }

  /** A rooted path made of names only is already clean. */
  lemma CleanRootedNames(es: seq<string>)
    requires forall i :: 0 <= i < |es| ==> IsName(es[i])
    ensures Clean("/" + Join(es)) == "/" + Join(es)
  {
    var p := "/" + Join(es);
    assert p[0] == '/';
    ElementsOfJoin(es);
    assert [] + es == es;
    assert Canonical(es, true);
    ReduceCanonicalIsIdentity([], es, true);
    assert Clean(p) == "/" + Join(Reduce([], Elements(p), true));
  }

  lemma ElementsAfterRootParent(x: string)
    ensures Elements("/../" + x) == [".."] + Elements("/" + x)
  {
    var p := "/../" + x;
    assert p[1..] == "../" + x;
    assert "../" + x == ".." + ("/" + x);
    ElementLengthOfElement("..", "/" + x);
    assert ("../" + x)[..2] == ".." && ("../" + x)[2..] == "/" + x;
  }

  /** A `..` right after the root is dropped: a rooted path never climbs
      above the root. */
  lemma CleanDropsRootParent(x: string)
    ensures Clean("/../" + x) == Clean("/" + x)
  {
    ElementsAfterRootParent(x);
  }

  /** A string without a slash is one element, or none when empty. */
  lemma ElementsOfSlashFree(p: string)
    requires '/' !in p
    ensures Elements(p) == if p == [] then [] else [p]
  {
    if p != [] {
      assert forall i :: 0 <= i < |p| ==> p[i] != '/';
      assert ElementLength(p) == |p|;
      assert p[..|p|] == p && p[|p|..] == [];
    }
  }

  lemma {:induction false} ElementLengthAppend(p: string, rest: string)
    requires rest == [] || rest[0] == '/'
    ensures ElementLength(p + rest) == ElementLength(p)
    decreases |p|
  {
    if p == [] {
      assert p + rest == rest;
    } else if p[0] != '/' {
      assert (p + rest)[0] == p[0];
      assert (p + rest)[1..] == p[1..] + rest;
      ElementLengthAppend(p[1..], rest);
    } else {
      assert (p + rest)[0] == p[0];
    }
  }

  /** A slash always separates elements: the elements of `p + "/" + q` are
      those of `p` followed by those of `q`. With the elements of a
      slash-free string (`ElementsOfSlashFree`) this determines
      `Elements` on every input. */
  lemma {:induction false} ElementsSplit(p: string, q: string)
    ensures Elements(p + "/" + q) == Elements(p) + Elements(q)
    decreases |p|, 1
  {
    var s := p + "/" + q;
    if p == [] {
      assert s == "/" + q && s[1..] == q;
    } else if p[0] == '/' {
      assert s[0] == '/';
      assert s[1..] == p[1..] + "/" + q;
      ElementsSplit(p[1..], q);
    } else {
      ElementsSplitAtName(p, q);
    }
  }

  lemma {:induction false} ElementsSplitAtName(p: string, q: string)
    requires p != [] && p[0] != '/'
    ensures Elements(p + "/" + q) == Elements(p) + Elements(q)
    decreases |p|, 0
  {
    var s := p + "/" + q;
    var n := ElementLength(p);
    ElementLengthAppend(p, "/" + q);
    assert p + ("/" + q) == s;
    assert s[0] == p[0];
    assert s[..n] == p[..n];
    assert s[n..] == p[n..] + "/" + q;
    assert Elements(s) == [s[..n]] + Elements(s[n..]);
    ElementsSplit(p[n..], q);
  }

  /** Reducing a concatenation reduces the first part, then the second. */
  lemma {:induction false} ReduceAppend(stack: seq<string>, a: seq<string>, b: seq<string>, rooted: bool)
    ensures Reduce(stack, a + b, rooted) == Reduce(Reduce(stack, a, rooted), b, rooted)
    decreases |a|
  {
    if a == [] {
      assert a + b == b;
    } else {
      assert (a + b)[0] == a[0];
      assert (a + b)[1..] == a[1..] + b;
      ReduceAppend(Step(stack, a[0], rooted), a[1..], b, rooted);
    }
  }

  /** Repeated slashes collapse, wherever they occur. */
  lemma CleanCollapsesSlashes(a: string, b: string)
    ensures Clean(a + "//" + b) == Clean(a + "/" + b)
  {
    assert a + "//" + b == a + "/" + ("/" + b);
    assert "/" + b == "" + "/" + b;
    ElementsSplit(a, "/" + b);
    ElementsSplit("", b);
    ElementsSplit(a, b);
    assert [] + Elements(b) == Elements(b);
    assert (a + "//" + b)[0] == (a + "/" + b)[0];
  }

  /** A trailing slash is dropped from any non-empty path. */
  lemma CleanDropsTrailingSlash(a: string)
    requires a != []
    ensures Clean(a + "/") == Clean(a)
  {
    assert a + "/" + "" == a + "/";
    ElementsSplit(a, "");
    assert Elements(a) + [] == Elements(a);
    assert (a + "/")[0] == a[0];
  }

  /** A `.` element is dropped, wherever it occurs. */
  lemma CleanDropsDot(a: string, b: string)
    ensures Clean(a + "/./" + b) == Clean(a + "/" + b)
  {
    var rooted := (a + "/" + b)[0] == '/';
    assert a + "/./" + b == a + "/" + ("." + "/" + b);
    assert (a + "/./" + b)[0] == (a + "/" + b)[0];
    ElementsSplit(a, "." + "/" + b);
    ElementsSplit(".", b);
    ElementsSplit(a, b);
    ElementsOfSlashFree(".");
    var ea, eb := Elements(a), Elements(b);
    assert Elements(a + "/./" + b) == ea + (["."] + eb);
    ReduceAppend([], ea, ["."] + eb, rooted);
    var st := Reduce([], ea, rooted);
    ReduceAppend(st, ["."], eb, rooted);
    assert ["."][1..] == [];
    ReduceAppend([], ea, eb, rooted);
  }

  lemma ElementsOfParentStep(name: string, b: string)
    requires IsName(name)
    ensures Elements(name + "/" + (".." + "/" + b)) == [name, ".."] + Elements(b)
  {
    ElementsSplit(name, ".." + "/" + b);
    ElementsSplit("..", b);
    ElementsOfSlashFree("..");
    ElementsOfSlashFree(name);
    assert [name] + ([".."] + Elements(b)) == [name, ".."] + Elements(b);
  }

  lemma ElementsAroundParent(a: string, name: string, b: string)
    requires IsName(name)
    ensures Elements(a + "/" + name + "/../" + b) == Elements(a) + ([name, ".."] + Elements(b))
  {
    var rest := name + "/" + (".." + "/" + b);
    assert a + "/" + name + "/../" + b == a + "/" + rest;
    ElementsSplit(a, rest);
    ElementsOfParentStep(name, b);
  }

  lemma ReduceCancelsParent(st: seq<string>, name: string, es: seq<string>, rooted: bool)
    requires IsName(name)
    ensures Reduce(st, [name, ".."] + es, rooted) == Reduce(st, es, rooted)
  {
    ReduceAppend(st, [name, ".."], es, rooted);
    assert [name, ".."][1..] == [".."] && [".."][1..] == [];
    assert (st + [name])[..|st|] == st;
  }

  /** A name followed by `..` cancels out, wherever it occurs. */
  lemma CleanParentCancels(a: string, name: string, b: string)
    requires IsName(name)
    ensures Clean(a + "/" + name + "/../" + b) == Clean(a + "/" + b)
  {
    var rooted := (a + "/" + b)[0] == '/';
    var p := a + "/" + name + "/../" + b;
    assert p[0] == (a + "/" + b)[0];
    ElementsAroundParent(a, name, b);
    ElementsSplit(a, b);
    var ea, eb := Elements(a), Elements(b);
    ReduceAppend([], ea, [name, ".."] + eb, rooted);
    ReduceCancelsParent(Reduce([], ea, rooted), name, eb, rooted);
    ReduceAppend([], ea, eb, rooted);
  }
}
