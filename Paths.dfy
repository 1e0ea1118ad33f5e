/** Slash-separated paths as Go's `path` package treats them: `path.Clean`,
    `path.Join`, and the paths `fs.WalkDir` hands to its callback. The
    collector builds every walked archive name as `path.Join(dir, p)`. */
module Paths {

  /** The elements of `s` between slashes, as `strings.Split(s, "/")`
      returns them: "" gives [""], "/a//b" gives ["", "a", "", "b"]. */
  function Split(s: string): (r: seq<string>)
    ensures |r| >= 1
  {
    if s == [] then [""]
    else
      var rest := Split(s[1..]);
      if s[0] == '/' then [""] + rest else [[s[0]] + rest[0]] + rest[1..]
  }

  /** The elements of `es` separated by single slashes (`strings.Join`). */
  function JoinSlash(es: seq<string>): (r: string)
  {
    if es == [] then ""
    else if |es| == 1 then es[0]
    else es[0] + "/" + JoinSlash(es[1..])
  }

  /** A single path element a directory can list: not empty, not "." or
      "..", and without a slash. */
  predicate IsName(e: string)
  {
    e != "" && e != "." && e != ".." && '/' !in e
  }

  predicate AllNames(es: seq<string>)
  {
    forall i :: 0 <= i < |es| ==> IsName(es[i])
  }

  /** Elements that `path.Clean` never keeps. */
  predicate NoDots(es: seq<string>)
  {
    forall i :: 0 <= i < |es| ==> es[i] != "" && es[i] != "."
  }

  /** Elements as `Split` produces them: none holds a slash. */
  predicate NoSlash(es: seq<string>)
  {
    forall i :: 0 <= i < |es| ==> '/' !in es[i]
  }

  /** One element of `path.Clean`'s lexical processing: empty and "."
      elements vanish, ".." removes the element before it, is dropped at the
      root of a rooted path, and is kept at the front of a relative one. */
  function CleanStep(acc: seq<string>, e: string, rooted: bool): (r: seq<string>)
  {
    if e == "" || e == "." then acc
    else if e == ".." then
      if |acc| > 0 && acc[|acc| - 1] != ".." then acc[..|acc| - 1]
      else if rooted then acc
      else acc + [".."]
    else acc + [e]
  }

  /** `CleanStep` over the elements of `es`, left to right. */
  function Reduce(es: seq<string>, rooted: bool, acc: seq<string>): (r: seq<string>)
  {
    if es == [] then acc else Reduce(es[1..], rooted, CleanStep(acc, es[0], rooted))
  }

  /** The path made of the reduced elements `st`: "/" in front of a rooted
      path, and "." for a relative path with no elements left. */
  function Assemble(st: seq<string>, rooted: bool): (r: string)
    requires NoDots(st)
    ensures r != ""
    ensures NoSlash(st) ==> (r[0] == '/' <==> rooted)
  {
    if rooted then "/" + JoinSlash(st)
    else if st == [] then "."
    else
      JoinSlashShape(st);
      assert st[0][0] in st[0];
      JoinSlash(st)
  }

  /** `path.Clean`: the shortest path naming the same file by purely
      lexical processing; "/" for a rooted path that reduces to nothing and
      "." for a relative one. */
  function Clean(p: string): (r: string)
    ensures r != ""
    ensures r[0] == '/' <==> p != "" && p[0] == '/'
  {
    if p == "" then "."
    else
      var rooted := p[0] == '/';
      ReduceNoDots(Split(p), rooted, []);
      SplitNoSlash(p);
      ReduceNoSlash(Split(p), rooted, []);
      Assemble(Reduce(Split(p), rooted, []), rooted)
  }

  /** `path.Join(a, b)`: the non-empty arguments joined by a slash and
      cleaned; "" when both are empty. */
  function Join(a: string, b: string): (r: string)
    ensures r == "" <==> a == "" && b == ""
    ensures a != "" ==> (r[0] == '/' <==> a[0] == '/')
    ensures a == "" && b != "" ==> (r[0] == '/' <==> b[0] == '/')
  {
    if a == "" && b == "" then ""
    else if a == "" then Clean(b)
    else if b == "" then Clean(a)
    else
      assert (a + "/" + b)[0] == a[0];
      Clean(a + "/" + b)
  }

  /** The path `fs.WalkDir` passes for the node reached through the names
      `names` from the walk's root: "." for the root itself, otherwise the
      names joined by slashes. */
  function WalkPath(names: seq<string>): (r: string)
  {
    if names == [] then "." else JoinSlash(names)
  }

  /** What `path.Join(dir, q)` puts in front of a relative path `q` of plain
      names when `dir` is already clean. */
  function Under(dir: string): (r: string)
  {
    if dir == "/" then "/" else if dir == "." then "" else dir + "/"
  }

  /** `Split` on a string that starts with the character `c`. */
  lemma SplitCons(c: char, t: string)
    ensures Split([c] + t) == if c == '/' then [""] + Split(t) else [[c] + Split(t)[0]] + Split(t)[1..]
  {
    assert ([c] + t)[0] == c;
    assert ([c] + t)[1..] == t;
  }

  lemma {:induction false} SplitConcat(a: string, b: string)
    ensures Split(a + "/" + b) == Split(a) + Split(b)
  {
    if a == [] {
      assert a + "/" + b == ['/'] + b;
      SplitCons('/', b);
    } else {
      var t := a[1..] + "/" + b;
      assert a + "/" + b == [a[0]] + t;
      assert a == [a[0]] + a[1..];
      SplitConcat(a[1..], b);
      SplitCons(a[0], t);
      SplitCons(a[0], a[1..]);
    }
  }

  lemma {:induction false} SplitName(e: string)
    requires '/' !in e
    ensures Split(e) == [e]
  {
    if e != [] {
      assert '/' !in e[1..] by {
        forall i | 0 <= i < |e[1..]| ensures e[1..][i] != '/' {
          assert e[1..][i] == e[i + 1];
        }
      }
      SplitName(e[1..]);
      assert [e[0]] + e[1..] == e;
    }
  }

  lemma {:induction false} SplitJoinSlash(es: seq<string>)
    requires es != []
    requires forall i :: 0 <= i < |es| ==> '/' !in es[i]
    ensures Split(JoinSlash(es)) == es
  {
    if |es| == 1 {
      SplitName(es[0]);
    } else {
      SplitJoinSlash(es[1..]);
      SplitName(es[0]);
      SplitConcat(es[0], JoinSlash(es[1..]));
      assert [es[0]] + es[1..] == es;
    }
  }

  lemma {:induction false} JoinSlashConcat(a: seq<string>, b: seq<string>)
    requires a != [] && b != []
    ensures JoinSlash(a + b) == JoinSlash(a) + "/" + JoinSlash(b)
  {
    if |a| == 1 {
      assert (a + b)[1..] == b;
    } else {
      JoinSlashConcat(a[1..], b);
      assert (a + b)[1..] == a[1..] + b;
    }
  }

  /** A non-empty list of elements that are neither empty nor "." joins to
      a path that is not empty, not "." and does not start with a slash. */
  lemma {:induction false} JoinSlashShape(es: seq<string>)
    requires es != [] && NoDots(es)
    ensures JoinSlash(es) != "" && JoinSlash(es) != "." && JoinSlash(es)[0] == es[0][0]
  {
    if |es| > 1 {
      JoinSlashShape(es[1..]);
      assert |JoinSlash(es)| >= 3;
    }
  }

  lemma {:induction false} ReduceConcat(a: seq<string>, b: seq<string>, rooted: bool, acc: seq<string>)
    ensures Reduce(a + b, rooted, acc) == Reduce(b, rooted, Reduce(a, rooted, acc))
  {
    if a == [] {
      assert a + b == b;
    } else {
      assert (a + b)[0] == a[0];
      assert (a + b)[1..] == a[1..] + b;
      ReduceConcat(a[1..], b, rooted, CleanStep(acc, a[0], rooted));
    }
  }

  lemma {:induction false} ReduceNames(es: seq<string>, rooted: bool, acc: seq<string>)
    requires AllNames(es)
    ensures Reduce(es, rooted, acc) == acc + es
  {
    if es != [] {
      ReduceNames(es[1..], rooted, acc + [es[0]]);
      assert acc + [es[0]] + es[1..] == acc + es;
    }
  }

  lemma {:induction false} ReduceNoDots(es: seq<string>, rooted: bool, acc: seq<string>)
    requires NoDots(acc)
    ensures NoDots(Reduce(es, rooted, acc))
  {
    if es != [] {
      var next := CleanStep(acc, es[0], rooted);
      assert NoDots(next);
      ReduceNoDots(es[1..], rooted, next);
    }
  }

  lemma {:induction false} SplitNoSlash(s: string)
    ensures NoSlash(Split(s))
  {
    if s != [] {
      SplitNoSlash(s[1..]);
      var rest := Split(s[1..]);
      if s[0] != '/' {
        assert '/' !in [s[0]] + rest[0];
        forall i | 0 <= i < |Split(s)| ensures '/' !in Split(s)[i] {
          if i > 0 {
            assert Split(s)[i] == rest[i];
          }
        }
      } else {
        forall i | 0 <= i < |Split(s)| ensures '/' !in Split(s)[i] {
          if i > 0 {
            assert Split(s)[i] == rest[i - 1];
          }
        }
      }
    }
  }

  lemma {:induction false} ReduceNoSlash(es: seq<string>, rooted: bool, acc: seq<string>)
    requires NoSlash(es) && NoSlash(acc)
    ensures NoSlash(Reduce(es, rooted, acc))
  {
    if es != [] {
      var next := CleanStep(acc, es[0], rooted);
      assert NoSlash(next) by {
        forall i | 0 <= i < |next| ensures '/' !in next[i] {
          if i < |acc| {
            assert next[i] == acc[i];
          }
        }
      }
      assert NoSlash(es[1..]) by {
        forall i | 0 <= i < |es[1..]| ensures '/' !in es[1..][i] {
          assert es[1..][i] == es[i + 1];
        }
      }
      ReduceNoSlash(es[1..], rooted, next);
    }
  }

  /** Appending plain names to the reduced elements of a path appends
      them, behind one slash, to the path those elements make up. */
  lemma AssembleAppend(s: seq<string>, names: seq<string>, rooted: bool)
    requires NoDots(s) && names != [] && AllNames(names)
    requires Assemble(s, rooted)[0] == '/' <==> rooted
    ensures NoDots(s + names)
    ensures Assemble(s + names, rooted) == Under(Assemble(s, rooted)) + JoinSlash(names)
  {
    assert NoDots(s + names) by {
      forall i | 0 <= i < |s + names| ensures (s + names)[i] != "" && (s + names)[i] != "." {
        if i >= |s| {
          assert (s + names)[i] == names[i - |s|];
        }
      }
    }
    if s == [] {
      assert s + names == names;
    } else {
      JoinSlashConcat(s, names);
      JoinSlashShape(s);
      var d := Assemble(s, rooted);
      if rooted {
        assert |d| >= 2;
      }
      assert d != "/" && d != ".";
    }
  }

  /** The walk path of `names` is never empty, and splits into `names`
      (or "." for the walk's root). */
  lemma WalkPathSplit(names: seq<string>)
    requires AllNames(names)
    ensures WalkPath(names) != ""
    ensures Split(WalkPath(names)) == if names == [] then ["."] else names
  {
    if names == [] {
      SplitName(".");
    } else {
      JoinSlashShape(names);
      SplitJoinSlash(names);
    }
  }

  /** `path.Join(dir, p)` for a clean `dir` and a walk path `p`: the root
      "." leaves `dir` as it is, and any other walk path is appended to
      `dir` behind a single slash; a `dir` of "/" contributes only that
      slash, and a `dir` of "." contributes nothing. */
  lemma JoinWalkPath(dir: string, names: seq<string>)
    requires Clean(dir) == dir
    requires AllNames(names)
    ensures Join(dir, WalkPath(names)) == if names == [] then dir else Under(dir) + JoinSlash(names)
  {
    var w := WalkPath(names);
    var rooted := dir[0] == '/';
    var s := Reduce(Split(dir), rooted, []);
    ReduceNoDots(Split(dir), rooted, []);
    assert dir == Assemble(s, rooted);
    WalkPathSplit(names);
    var x := dir + "/" + w;
    assert x[0] == dir[0];
    SplitConcat(dir, w);
    ReduceConcat(Split(dir), Split(w), rooted, []);
    if names == [] {
      assert Reduce(["."], rooted, s) == s;
    } else {
      ReduceNames(names, rooted, s);
      AssembleAppend(s, names, rooted);
    }
  }

  lemma CleanPublic()
    ensures Clean("/public") == "/public"
  {
    SplitName("public");
    assert "/public" == "/" + "public";
    assert Split("/public") == ["", "public"];
    assert Reduce(["", "public"], true, []) == Reduce(["public"], true, []);
    assert Reduce(["public"], true, []) == ["public"];
  }
}
