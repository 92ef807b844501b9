/** Paths as strings: how they split into components, and how components join into a path. */
module VfsPaths {

  const NAME_MAX: nat := 127

  /** The path behind its leading slashes. */
  function SkipSlashes(p: string): (r: string)
    ensures |r| <= |p|
    ensures r != [] ==> r[0] != '/'
  {
    if p != [] && p[0] == '/' then SkipSlashes(p[1..]) else p
  }

  /** The characters up to a slash, at most `n`. */
  function Take(p: string, n: nat): (c: string)
    ensures |c| <= |p|
    ensures p != [] && p[0] != '/' && n > 0 ==> c != []
  {
    if p == [] || n == 0 || p[0] == '/' then [] else [p[0]] + Take(p[1..], n - 1)
  }

  /** The components of a path; one longer than a name may be is cut into several. */
  function Components(p: string): seq<string>
    decreases |p|
  {
    var q := SkipSlashes(p);
    if q == [] then []
    else var c := Take(q, NAME_MAX); [c] + Components(q[|c|..])
  }

  // ---- laws ----

  lemma {:induction false} SkipAppend(a: string, b: string)
    requires SkipSlashes(a) != []
    ensures SkipSlashes(a + b) == SkipSlashes(a) + b
  {
    if a[0] == '/' {
      assert (a + b)[1..] == a[1..] + b;
      SkipAppend(a[1..], b);
    }
  }

  lemma {:induction false} SkipAll(a: string, b: string)
    requires SkipSlashes(a) == []
    ensures SkipSlashes(a + b) == SkipSlashes(b)
  {
    if a == [] {
      assert a + b == b;
    } else {
      assert (a + b)[1..] == a[1..] + b;
      SkipAll(a[1..], b);
    }
  }

  lemma {:induction false} TakeAppend(p: string, b: string, n: nat)
    requires b == [] || b[0] == '/'
    ensures Take(p + b, n) == Take(p, n)
  {
    if p == [] {
      assert p + b == b;
    } else if n > 0 && p[0] != '/' {
      assert (p + b)[1..] == p[1..] + b;
      TakeAppend(p[1..], b, n - 1);
    }
  }

  lemma {:induction false} SlashSkipped(b: string)
    ensures SkipSlashes("/" + b) == SkipSlashes(b)
  {
  }

  lemma {:induction false} NoComponents(p: string)
    requires SkipSlashes(p) == []
    ensures Components(p) == []
  {
  }

  lemma {:induction false} SkippedComponents(a: string, b: string)
    requires SkipSlashes(a) == SkipSlashes(b)
    ensures Components(a) == Components(b)
  {
  }

  lemma {:induction false} OnlySlashes(a: string, b: string)
    requires SkipSlashes(a) == []
    ensures Components(a + ("/" + b)) == Components(a) + Components(b)
  {
    SlashSkipped(b);
    SkipAll(a, "/" + b);
    NoComponents(a);
    hide SkipSlashes, Take, Components;
    SkippedComponents(a + ("/" + b), b);
    assert [] + Components(b) == Components(b);
  }

  lemma {:induction false} ComponentsStep(p: string, q: string, c: string)
    requires q == SkipSlashes(p) && q != [] && c == Take(q, NAME_MAX)
    ensures c != [] && |c| <= |q| && Components(p) == [c] + Components(q[|c|..])
  {
  }

  /** A slash ends whatever component stands before it. */
  lemma {:induction false} ComponentsAppend(a: string, b: string)
    ensures Components(a + "/" + b) == Components(a) + Components(b)
    decreases |a|
  {
    hide SkipSlashes, Take, Components;
    var s := "/" + b;
    assert a + "/" + b == a + s;
    var q := SkipSlashes(a);
    if q == [] {
      OnlySlashes(a, b);
    } else {
      var c := Take(q, NAME_MAX);
      SkipAppend(a, s);
      TakeAppend(q, s, NAME_MAX);
      ComponentsStep(a, q, c);
      ComponentsStep(a + s, q + s, c);
      assert (q + s)[|c|..] == q[|c|..] + "/" + b;
      ComponentsAppend(q[|c|..], b);
      assert [c] + (Components(q[|c|..]) + Components(b)) == [c] + Components(q[|c|..]) + Components(b);
    }
  }

  /** No component is empty. */
  lemma {:induction false} ComponentsNamed(p: string)
    ensures "" !in Components(p)
    decreases |p|
  {
    var q := SkipSlashes(p);
    if q == [] {
      NoComponents(p);
    } else {
      var c := Take(q, NAME_MAX);
      ComponentsStep(p, q, c);
      ComponentsNamed(q[|c|..]);
    }
  }

  lemma {:induction false} TakeAll(c: string, n: nat)
    requires '/' !in c && |c| <= n
    ensures Take(c, n) == c
  {
    if c != [] {
      TakeAll(c[1..], n - 1);
    }
  }

  lemma {:induction false} OneComponent(c: string)
    requires 0 < |c| <= NAME_MAX && '/' !in c
    ensures Components(c) == [c]
  {
    assert SkipSlashes(c) == c;
    TakeAll(c, NAME_MAX);
    assert c[|c|..] == [];
    assert SkipSlashes("") == "";
  }

  /** Names joined into a path, each behind a slash. */
  function Joined(names: seq<string>): string {
    if names == [] then "" else Joined(names[..|names| - 1]) + "/" + names[|names| - 1]
  }

  /** The names that are not empty. */
  function Named(names: seq<string>): (r: seq<string>)
    ensures |r| <= |names|
    ensures |r| == |names| ==> r == names && forall i :: 0 <= i < |names| ==> names[i] != ""
  {
    if names == [] then []
    else
      var r, c := Named(names[..|names| - 1]), names[|names| - 1];
      if c == "" then r else r + [c]
  }

  lemma {:induction false} NamedAll(names: seq<string>)
    requires forall i :: 0 <= i < |names| ==> names[i] != ""
    ensures Named(names) == names
  {
    if names != [] {
      NamedAll(names[..|names| - 1]);
    }
  }

  /** The components of a joined path are its names, as far as they are not empty. */
  lemma {:induction false} JoinedComponents(names: seq<string>)
    requires forall i :: 0 <= i < |names| ==> |names[i]| <= NAME_MAX && '/' !in names[i]
    ensures Components(Joined(names)) == Named(names)
  {
    hide Components;
    assert Components("") == [] by { NoComponents(""); }
    if names != [] {
      var pre, c := names[..|names| - 1], names[|names| - 1];
      JoinedComponents(pre);
      ComponentsAppend(Joined(pre), c);
      if c != "" {
        OneComponent(c);
      } else {
        assert Named(pre) + [] == Named(pre);
      }
    }
  }
}
