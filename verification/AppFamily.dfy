/** Which processes belong to an application: its bundle's, and all their descendants. */
module AppFamily {
  import opened Seqs

  datatype Proc = Proc(pid: int, ppid: int, path: string)

  // ----- bundles -----

  const APP_SLASH := ".app/"

  predicate At(s: string, i: nat, t: string) {
    i + |t| <= |s| && s[i..i + |t|] == t
  }

  /** `str::find`, from index `i` on. */
  function Find(s: string, t: string, i: nat): (r: Option<nat>)
    ensures r.Some? ==> i <= r.value && At(s, r.value, t) && forall j | i <= j < r.value :: !At(s, j, t)
    ensures r.None? ==> forall j | i <= j :: !At(s, j, t)
    decreases |s| - i
  {
    if At(s, i, t) then Some(i) else if i + |t| >= |s| then None else Find(s, t, i + 1)
  }

  /** The outermost `.app` bundle an executable lives in. */
  function BundleRoot(path: string): Option<string> {
    var r := Find(path, APP_SLASH, 0);
    if r.None? then None else Some(path[..r.value + 4])
  }

  /** A path lies in a bundle exactly when that bundle is its outermost one. */
  lemma InBundleIffSameRoot(exe: string, path: string)
    requires BundleRoot(exe).Some?
    ensures BundleRoot(exe).value + "/" <= path <==> BundleRoot(path) == BundleRoot(exe)
  {
    var k := Find(exe, APP_SLASH, 0).value;
    var prefix := exe[..k + 5];
    assert exe[k..k + 5] == APP_SLASH;
    assert exe[..k + 4] + "/" == prefix;
    if prefix <= path {
      assert path[..k + 5] == prefix;
      assert path[k..k + 5] == exe[k..k + 5];
      forall j: nat | j < k ensures !At(path, j, APP_SLASH) {
        assert path[j..j + 5] == exe[j..j + 5];
        assert !At(exe, j, APP_SLASH);
      }
      assert At(path, k, APP_SLASH);
      assert Find(path, APP_SLASH, 0) == Some(k);
      assert path[..k + 4] == exe[..k + 4];
    }
    if BundleRoot(path) == BundleRoot(exe) {
      var m := Find(path, APP_SLASH, 0).value;
      assert |path[..m + 4]| == |exe[..k + 4]|;
      assert path[m..m + 5] == APP_SLASH;
      assert path[..k + 5] == path[..k + 4] + [path[k + 4]];
      assert path[k + 4] == path[m..m + 5][4] == '/';
    }
  }

  // ----- families -----

  /** `c` is a child of `p`, and the walk may go from `p`: launchd and init are never walked from. */
  predicate Child(p: int, c: int, procs: seq<Proc>) {
    p > 1 && exists i | 0 <= i < |procs| :: procs[i].ppid == p && procs[i].pid == c
  }

  ghost predicate Closed(f: set<int>, procs: seq<Proc>) {
    forall p, c | p in f && Child(p, c, procs) :: c in f
  }

  function Seeds(pid: int, exe: string, procs: seq<Proc>): set<int> {
    var root := BundleRoot(exe);
    if root.None? then {pid}
    else {pid} + set p | p in procs && root.value + "/" <= p.path :: p.pid
  }

  /** The least set that holds the seeds and, with any of its members, that one's children. */
  ghost predicate IsFamily(f: set<int>, seeds: set<int>, procs: seq<Proc>) {
    && seeds <= f && Closed(f, procs)
    && forall g: set<int> :: seeds <= g && Closed(g, procs) ==> f <= g
  }

  lemma FamilyIsUnique(f: set<int>, g: set<int>, seeds: set<int>, procs: seq<Proc>)
    requires IsFamily(f, seeds, procs) && IsFamily(g, seeds, procs)
    ensures f == g
  {
    assert f <= g && g <= f;
  }

  function Pids(procs: seq<Proc>): set<int> { set p | p in procs :: p.pid }

  function ChildrenOf(parent: int, procs: seq<Proc>): (cs: seq<int>)
    ensures forall c :: c in cs <==> exists i | 0 <= i < |procs| :: procs[i].ppid == parent && procs[i].pid == c
  {
    if procs == [] then []
    else
      var rest := ChildrenOf(parent, procs[1..]);
      assert procs == [procs[0]] + procs[1..];
      if procs[0].ppid == parent then [procs[0].pid] + rest else rest
  }

  /** The worklist: grows `family` from the seeds until nobody is pending. */
  method Grow(seeds: set<int>, order: seq<int>, procs: seq<Proc>) returns (family: set<int>)
    requires forall p :: p in order <==> p in seeds
    ensures IsFamily(family, seeds, procs)
  {
    family := seeds;
    var pending := order;
    ghost var all := seeds + Pids(procs);
    while pending != []
      invariant seeds <= family <= all
      invariant forall p | p in pending :: p in family
      invariant forall p, c | p in family && p !in pending && Child(p, c, procs) :: c in family
      invariant forall g: set<int> :: seeds <= g && Closed(g, procs) ==> family <= g
      decreases all - family, |pending|
    {
      var parent := pending[|pending| - 1];
      ghost var before := pending;
      pending := pending[..|pending| - 1];
      assert before == pending + [parent];
      if parent > 1 {
        family, pending := AddChildren(parent, ChildrenOf(parent, procs), family, pending, seeds, procs);
      }
    }
  }

  /** The inner loop: every new child joins the family and waits to be walked from. */
  method AddChildren(parent: int, children: seq<int>, family: set<int>, pending: seq<int>,
                     ghost seeds: set<int>, ghost procs: seq<Proc>)
    returns (family': set<int>, pending': seq<int>)
    requires parent in family && parent > 1
    requires forall c :: c in children <==> Child(parent, c, procs)
    requires forall p | p in pending :: p in family
    requires forall p, c | p in family && p !in pending && p != parent && Child(p, c, procs) :: c in family
    requires forall g: set<int> :: seeds <= g && Closed(g, procs) ==> family <= g
    requires family <= seeds + Pids(procs)
    ensures family <= family' <= seeds + Pids(procs)
    ensures family' == family ==> pending' == pending
    ensures forall p | p in pending' :: p in family'
    ensures forall p, c | p in family' && p !in pending' && Child(p, c, procs) :: c in family'
    ensures forall g: set<int> :: seeds <= g && Closed(g, procs) ==> family' <= g
  {
    family', pending' := family, pending;
    for i := 0 to |children|
      invariant family <= family' <= seeds + Pids(procs)
      invariant forall p | p in pending :: p in pending'
      invariant family' == family ==> pending' == pending
      invariant forall p | p in pending' :: p in family'
      invariant forall p | p in family' && p !in family :: p in pending'
      invariant forall j | 0 <= j < i :: children[j] in family'
      invariant forall g: set<int> :: seeds <= g && Closed(g, procs) ==> family' <= g
    {
      var child := children[i];
      assert child in children && Child(parent, child, procs);
      if child !in family' {
        family' := family' + {child};
        pending' := pending' + [child];
      }
    }
  }

  // ----- the result -----

  ghost predicate Ascending(s: seq<int>) {
    forall i, j | 0 <= i < j < |s| :: s[i] < s[j]
  }

  function Elements(s: seq<int>): set<int> { set x | x in s }

  lemma Smallest(s: set<int>) returns (m: int)
    requires s != {}
    ensures m in s && forall x | x in s :: m <= x
    decreases |s|
  {
    m := AnElement(s);
    var rest := s - {m};
    if rest != {} {
      var n := Smallest(rest);
      assert forall x | x in s :: x == m || x in rest;
      m := if n < m then n else m;
    } else {
      assert forall x | x in s :: x == m || x in rest;
    }
  }

  lemma AppendLargest(out: seq<int>, m: int)
    requires Ascending(out) && forall x | x in out :: x < m
    ensures Ascending(out + [m]) && Elements(out + [m]) == Elements(out) + {m}
  {
    assert forall i | 0 <= i < |out| :: out[i] in out;
  }

  /** A set as a list in ascending order. */
  method Sorted(s: set<int>) returns (out: seq<int>)
    ensures Ascending(out) && Elements(out) == s
  {
    out := [];
    var rest := s;
    while rest != {}
      invariant Ascending(out) && Elements(out) + rest == s
      invariant forall x, y | x in out && y in rest :: x < y
      decreases |rest|
    {
      ghost var least := Smallest(rest);
      var m :| m in rest && forall x | x in rest :: m <= x;
      AppendLargest(out, m);
      Moves(out, rest, m);
      out := out + [m];
      rest := rest - {m};
    }
  }

  lemma Moves(out: seq<int>, rest: set<int>, m: int)
    requires m in rest && (forall x | x in rest :: m <= x) && forall x, y | x in out && y in rest :: x < y
    ensures Elements(out) + rest == Elements(out) + {m} + (rest - {m})
    ensures forall x, y | x in out + [m] && y in rest - {m} :: x < y
  {
  }

  /** Any order in which the members of a set may be listed. */
  method Listed(s: set<int>) returns (order: seq<int>)
    ensures forall p :: p in order <==> p in s
  {
    order := [];
    var rest := s;
    while rest != {}
      invariant forall p :: p in s <==> p in order || p in rest
      decreases |rest|
    {
      ghost var some := AnElement(rest);
      var p :| p in rest;
      rest := rest - {p};
      order := order + [p];
    }
  }

  /** What `app_family` returns: the family without the agent itself, launchd and init. */
  ghost predicate IsResult(out: seq<int>, pid: int, exe: string, procs: seq<Proc>, ownPid: int) {
    && Ascending(out)
    && forall f | IsFamily(f, Seeds(pid, exe, procs), procs) ::
        Elements(out) == set p | p in f && p > 1 && p != ownPid
  }

  /** Ends on any process list, cycles in the parent links included. */
  method Family(pid: int, exe: string, procs: seq<Proc>, ownPid: int) returns (out: seq<int>, ghost f: set<int>)
    ensures IsFamily(f, Seeds(pid, exe, procs), procs)
    ensures Ascending(out) && Elements(out) == set p | p in f && p > 1 && p != ownPid
    ensures IsResult(out, pid, exe, procs, ownPid)
  {
    var seeds := Seeds(pid, exe, procs);
    var order := Listed(seeds);
    var family := Grow(seeds, order, procs);
    out := Sorted(set p | p in family && p > 1 && p != ownPid);
    f := family;
    forall g | IsFamily(g, seeds, procs) ensures g == f {
      FamilyIsUnique(f, g, seeds, procs);
    }
  }

  /** Whichever process of a bundle is matched, the same processes are stopped. */
  lemma SameBundleSameFamily(a: Proc, b: Proc, procs: seq<Proc>, ownPid: int,
                             out: seq<int>, out': seq<int>, f: set<int>)
    requires a in procs && b in procs && BundleRoot(a.path).Some? && BundleRoot(a.path) == BundleRoot(b.path)
    requires IsFamily(f, Seeds(a.pid, a.path, procs), procs)
    requires IsResult(out, a.pid, a.path, procs, ownPid) && IsResult(out', b.pid, b.path, procs, ownPid)
    ensures out == out'
  {
    InBundleIffSameRoot(a.path, a.path);
    InBundleIffSameRoot(b.path, b.path);
    assert Seeds(a.pid, a.path, procs) == Seeds(b.pid, b.path, procs);
    AscendingUnique(out, out');
  }

  lemma {:induction false} AscendingUnique(a: seq<int>, b: seq<int>)
    requires Ascending(a) && Ascending(b) && Elements(a) == Elements(b)
    ensures a == b
  {
    assert a == [] <==> b == [] by { EmptyElements(a); EmptyElements(b); }
    if a != [] {
      LastIsLargest(a);
      LastIsLargest(b);
      var x := a[|a| - 1];
      assert b[|b| - 1] == x;
      AscendingUnique(a[..|a| - 1], b[..|b| - 1]);
      assert a == a[..|a| - 1] + [x] && b == b[..|b| - 1] + [x];
    }
  }

  lemma EmptyElements(a: seq<int>)
    ensures Elements(a) == {} <==> a == []
  {
    if a != [] { assert a[0] in Elements(a); }
  }

  lemma LastIsLargest(a: seq<int>)
    requires Ascending(a) && a != []
    ensures a[|a| - 1] in Elements(a) && forall v | v in Elements(a) :: v <= a[|a| - 1]
    ensures Ascending(a[..|a| - 1])
    ensures Elements(a[..|a| - 1]) == Elements(a) - {a[|a| - 1]}
  {
    var a' := a[..|a| - 1];
    assert a == a' + [a[|a| - 1]];
    assert forall v | v in a' :: v < a[|a| - 1];
  }

  /** A bundle's root is the path up to the first component that ends in ".app". */
  lemma RootIs(path: string, root: string)
    ensures BundleRoot(path) == Some(root) <==> IsRoot(path, root)
    ensures BundleRoot(path).None? <==> forall k: nat :: !At(path, k, ".app/")
  {
    if BundleRoot(path) == Some(root) {
      FoundIsRoot(path);
    }
    if IsRoot(path, root) {
      RootIsFound(path, root);
    }
  }

  ghost predicate IsRoot(path: string, root: string) {
    && |root| >= 4 && At(path, 0, root + "/") && At(root, |root| - 4, ".app")
    && forall k: nat | k < |root| - 4 :: !At(path, k, ".app/")
  }

  lemma FoundIsRoot(path: string)
    requires BundleRoot(path).Some?
    ensures IsRoot(path, BundleRoot(path).value)
  {
    var k := Find(path, APP_SLASH, 0).value;
    var root := path[..k + 4];
    assert path[k..k + 5] == ".app/";
    assert path[0..k + 5] == root + [path[k..k + 5][4]];
    assert root[k..k + 4] == path[k..k + 5][..4];
  }

  lemma RootIsFound(path: string, root: string)
    requires IsRoot(path, root)
    ensures BundleRoot(path) == Some(root)
  {
    var k := |root| - 4;
    assert path[0..|root| + 1] == root + "/";
    assert path[k..k + 5] == (root + "/")[k..k + 5];
    assert (root + "/")[k..k + 5] == root[k..k + 4] + "/";
    assert At(path, k, ".app/");
    assert path[..|root|] == (root + "/")[..|root|] == root;
    assert Find(path, APP_SLASH, 0) == Some(k);
  }
}
