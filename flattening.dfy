/**
 * An independent description of what flattening yields, and the proof that
 * the recursive walk of module Entries meets it: one entry per root-to-leaf
 * path of the tree, in depth-first pre-order, each entry being the root
 * accumulator extended along its path and then finished; MissingExec names
 * the first such leaf whose resolved exec is empty.
 */
module Flattening {
  import opened Wrappers
  import opened Strings
  import opened Entries

  // ------------------------------------------------------ root-to-leaf paths

  /** Every path in `ps`, each preceded by `c`. */
  function Under(c: Child, ps: seq<seq<Child>>): seq<seq<Child>>
  {
    seq(|ps|, i requires 0 <= i < |ps| => [c] + ps[i])
  }

  /** The leaf paths that start at `c`, in pre-order. */
  function ChildPaths(c: Child): seq<seq<Child>>
    decreases c, 0
  {
    if |c.entry.children| == 0 then [[c]] else Under(c, Paths(c.entry.children))
  }

  /** The leaf paths of a child list, in declaration and pre-order. */
  function Paths(children: seq<Child>): seq<seq<Child>>
    decreases children, 1
  {
    if |children| == 0 then []
    else Paths(children[..|children| - 1]) + ChildPaths(children[|children| - 1])
  }

  /** `p` goes from one of `children` down through child links to a leaf. */
  predicate IsLeafPath(children: seq<Child>, p: seq<Child>)
    decreases p
  {
    && |p| > 0
    && p[0] in children
    && if |p| == 1 then |p[0].entry.children| == 0 else IsLeafPath(p[0].entry.children, p[1..])
  }

  lemma {:induction false} ChildPathsAreLeafPaths(c: Child)
    ensures forall p :: p in ChildPaths(c) ==> IsLeafPath([c], p)
    decreases c, 0
  {
    if |c.entry.children| > 0 {
      var ps := Paths(c.entry.children);
      PathsAreLeafPaths(c.entry.children);
      forall p: seq<Child> | p in ChildPaths(c) ensures IsLeafPath([c], p) {
        var i :| 0 <= i < |ps| && p == [c] + ps[i];
        assert ps[i] in ps && p[1..] == ps[i];
      }
    }
  }

  /** Every listed path is a leaf path of the tree. */
  lemma {:induction false} PathsAreLeafPaths(children: seq<Child>)
    ensures forall p :: p in Paths(children) ==> IsLeafPath(children, p)
    decreases children, 1
  {
    if |children| > 0 {
      var init, last := children[..|children| - 1], children[|children| - 1];
      PathsAreLeafPaths(init);
      ChildPathsAreLeafPaths(last);
      forall p: seq<Child> | p in Paths(children) ensures IsLeafPath(children, p) {
        if p in Paths(init) {
          assert IsLeafPath(init, p);
        } else {
          assert IsLeafPath([last], p);
        }
      }
    }
  }

  /** Every leaf path of the tree is listed: no leaf is skipped. */
  lemma {:induction false} LeafPathsListed(children: seq<Child>, p: seq<Child>)
    requires IsLeafPath(children, p)
    ensures p in Paths(children)
    decreases children, 1
  {
    var init, last := children[..|children| - 1], children[|children| - 1];
    if p[0] in init {
      LeafPathsListed(init, p);
    } else {
      LeafPathsOfChildListed(last, p);
    }
  }

  lemma {:induction false} LeafPathsOfChildListed(c: Child, p: seq<Child>)
    requires IsLeafPath([c], p)
    ensures p in ChildPaths(c)
    decreases c, 0
  {
    if |c.entry.children| == 0 {
      assert p == [c];
    } else {
      var q := p[1..];
      LeafPathsListed(c.entry.children, q);
      var ps := Paths(c.entry.children);
      var i :| 0 <= i < |ps| && ps[i] == q;
      assert Under(c, ps)[i] == p;
    }
  }

  // ------------------------------------------------- entries along a path

  /** The accumulator after descending from `current` along `p`. */
  function Along(current: Entry, p: seq<Child>): Entry
    decreases p
  {
    if |p| == 0 then current else Along(Descend(current, p[0]), p[1..])
  }

  function AlongEach(current: Entry, ps: seq<seq<Child>>): seq<Entry>
  {
    seq(|ps|, i requires 0 <= i < |ps| => Along(current, ps[i]))
  }

  /** The leaf check and finishing, applied to a list of resolved leaves: the
      finished leaves when every exec is non-empty, MissingExec for the first
      leaf with an empty exec otherwise. */
  function Emit(leaves: seq<Entry>): (r: Result<seq<Entry>, BuildError>)
    ensures r.Ok? <==> forall i :: 0 <= i < |leaves| ==> leaves[i].exec != ""
    ensures r.Ok? ==> |r.value| == |leaves| &&
                      forall i :: 0 <= i < |leaves| ==> r.value[i] == Finish(leaves[i])
    ensures r.Err? ==>
              exists i :: 0 <= i < |leaves| && leaves[i].exec == "" &&
                          r.error == MissingExec(leaves[i].name) &&
                          (forall k :: 0 <= k < i ==> leaves[k].exec != "")
  {
    if |leaves| == 0 then Ok([])
    else if leaves[0].exec == "" then Err(MissingExec(leaves[0].name))
    else
      match Emit(leaves[1..])
      case Err(e) =>
        ghost var i :| 1 <= i + 1 < |leaves| && leaves[1..][i].exec == "" && e == MissingExec(leaves[1..][i].name) &&
                       (forall k :: 0 <= k < i ==> leaves[1..][k].exec != "");
        assert forall k :: 0 <= k < i + 1 ==> leaves[k].exec != "" by {
          forall k | 0 <= k < i + 1 ensures leaves[k].exec != "" {
            if k > 0 { assert leaves[k] == leaves[1..][k - 1]; }
          }
        }
        Err(e)
      case Ok(rest) => Ok([Finish(leaves[0])] + rest)
  }

  lemma {:induction false} EmitAppend(a: seq<Entry>, b: seq<Entry>)
    ensures Emit(a + b) == Then(Emit(a), Emit(b))
  {
    if |a| > 0 {
      assert (a + b)[1..] == a[1..] + b;
      EmitAppend(a[1..], b);
      if a[0].exec != "" && Emit(a[1..]).Ok? && Emit(b).Ok? {
        var f, xs, ys := Finish(a[0]), Emit(a[1..]).value, Emit(b).value;
        assert [f] + (xs + ys) == ([f] + xs) + ys;
      }
    } else {
      assert a + b == b;
      if Emit(b).Ok? {
        assert [] + Emit(b).value == Emit(b).value;
      }
    }
  }

  lemma AlongEachAppend(current: Entry, ps: seq<seq<Child>>, qs: seq<seq<Child>>)
    ensures AlongEach(current, ps + qs) == AlongEach(current, ps) + AlongEach(current, qs)
  {
  }

  lemma AlongEachUnder(current: Entry, c: Child, ps: seq<seq<Child>>)
    ensures AlongEach(current, Under(c, ps)) == AlongEach(Descend(current, c), ps)
  {
    forall i | 0 <= i < |ps|
      ensures AlongEach(current, Under(c, ps))[i] == AlongEach(Descend(current, c), ps)[i]
    {
      assert ([c] + ps[i])[1..] == ps[i];
    }
  }

  lemma {:induction false} FlattenChildMatchesLeaves(current: Entry, c: Child)
    ensures FlattenChild(current, c) == Emit(AlongEach(current, ChildPaths(c)))
    decreases c, 0
  {
    if |c.entry.children| == 0 {
      var d := Descend(current, c);
      assert [c][1..] == [];
      assert Along(current, [c]) == d;
      assert AlongEach(current, [[c]]) == [d];
      assert [d][1..] == [];
      assert [Finish(d)] + [] == [Finish(d)];
    } else {
      AlongEachUnder(current, c, Paths(c.entry.children));
      FlattenMatchesLeaves(Descend(current, c), c.entry.children);
    }
  }

  /** The walk yields exactly the leaves of the tree in pre-order, each the
      accumulator descended along its path: `Flatten` agrees with `Emit` over
      `Paths`. */
  lemma {:induction false} FlattenMatchesLeaves(current: Entry, children: seq<Child>)
    ensures Flatten(current, children) == Emit(AlongEach(current, Paths(children)))
    decreases children, 1
  {
    if |children| > 0 {
      var init, last := children[..|children| - 1], children[|children| - 1];
      FlattenMatchesLeaves(current, init);
      FlattenChildMatchesLeaves(current, last);
      AlongEachAppend(current, Paths(init), ChildPaths(last));
      EmitAppend(AlongEach(current, Paths(init)), AlongEach(current, ChildPaths(last)));
    }
  }

  // ------------------------------------------- the fields of a descended entry

  /** The key fragments along `p`, concatenated. */
  function Keys(p: seq<Child>): string
  {
    if |p| == 0 then "" else p[0].entry.key + Keys(p[1..])
  }

  /** `" > label"` for every node along `p`, concatenated. */
  function Labels(p: seq<Child>): string
  {
    if |p| == 0 then "" else " > " + p[0].name + Labels(p[1..])
  }

  /** The nodes' own `args` along `p`, concatenated. */
  function OwnArgs(p: seq<Child>): seq<string>
  {
    if |p| == 0 then [] else p[0].entry.args.UnwrapOr([]) + OwnArgs(p[1..])
  }

  /** The nodes' own `env` along `p`, each split by `to_env`, concatenated. */
  function OwnEnv(p: seq<Child>): seq<(string, string)>
  {
    if |p| == 0 then [] else ToEnv(p[0].entry.env.UnwrapOr([])) + OwnEnv(p[1..])
  }

  /** One breadcrumb per node along `p`: its label and the key so far. */
  function Crumbs(key0: string, p: seq<Child>): seq<(string, string)>
  {
    seq(|p|, j requires 0 <= j < |p| => (p[j].name, key0 + Keys(p[..j + 1])))
  }

  /** Descending along a path appends every node's key fragment and its
      `" > label"` after the inherited ones. */
  lemma {:induction false} AlongFields(current: Entry, p: seq<Child>)
    decreases p
    ensures Along(current, p).key == current.key + Keys(p)
    ensures Along(current, p).name == current.name + Labels(p)
  {
    if |p| > 0 {
      var d := Descend(current, p[0]);
      AlongFields(d, p[1..]);
      assert d.key + Keys(p[1..]) == current.key + Keys(p);
      assert d.name + Labels(p[1..]) == current.name + Labels(p);
    }
  }

  /** Descending along a path appends every node's own args after the
      inherited ones; nothing inherited is replaced. */
  lemma {:induction false} AlongArgs(current: Entry, p: seq<Child>)
    decreases p
    ensures Along(current, p).args == current.args + OwnArgs(p)
  {
    if |p| > 0 {
      var d := Descend(current, p[0]);
      AlongArgs(d, p[1..]);
      var own := p[0].entry.args.UnwrapOr([]);
      assert d.args == current.args + own;
      assert (current.args + own) + OwnArgs(p[1..]) == current.args + (own + OwnArgs(p[1..]));
    }
  }

  /** Descending along a path appends every node's own env, split by
      `to_env`, after the inherited one; nothing inherited is replaced. */
  lemma {:induction false} AlongEnv(current: Entry, p: seq<Child>)
    decreases p
    ensures Along(current, p).env == current.env + OwnEnv(p)
  {
    if |p| > 0 {
      var d := Descend(current, p[0]);
      AlongEnv(d, p[1..]);
      var own := ToEnv(p[0].entry.env.UnwrapOr([]));
      assert d.env == current.env + own;
      assert (current.env + own) + OwnEnv(p[1..]) == current.env + (own + OwnEnv(p[1..]));
    }
  }

  /** Descending along a path pushes one breadcrumb per node, carrying the
      node's label and the key accumulated up to and including that node. */
  lemma {:induction false} AlongCrumbs(current: Entry, p: seq<Child>)
    decreases p
    ensures Along(current, p).breadcrumbs == current.breadcrumbs + Crumbs(current.key, p)
  {
    if |p| > 0 {
      var d := Descend(current, p[0]);
      AlongCrumbs(d, p[1..]);
      CrumbsCons(current.key, p);
    }
  }

  /** The first breadcrumb of a path, then those of the rest of the path
      under the key extended by the first fragment. */
  lemma CrumbsCons(key0: string, p: seq<Child>)
    requires |p| > 0
    ensures Crumbs(key0, p) == [(p[0].name, key0 + p[0].entry.key)] + Crumbs(key0 + p[0].entry.key, p[1..])
  {
    var crumbs := Crumbs(key0, p);
    var k1 := key0 + p[0].entry.key;
    var rest := p[1..];
    assert Keys(p[..1]) == p[0].entry.key by {
      assert p[..1][1..] == [];
    }
    forall j | 0 <= j < |rest|
      ensures crumbs[j + 1] == Crumbs(k1, rest)[j]
    {
      assert p[..j + 2][1..] == rest[..j + 1];
      assert Keys(p[..j + 2]) == p[0].entry.key + Keys(rest[..j + 1]);
      assert key0 + (p[0].entry.key + Keys(rest[..j + 1])) == k1 + Keys(rest[..j + 1]);
      assert rest[j] == p[j + 1];
    }
  }

  /** `exec` along a path: the last value a node declares, or the inherited
      one when no node declares any. */
  lemma {:induction false} AlongExec(current: Entry, p: seq<Child>)
    ensures (forall j :: 0 <= j < |p| ==> p[j].entry.exec.None?) ==> Along(current, p).exec == current.exec
    ensures forall j :: 0 <= j < |p| && p[j].entry.exec.Some? &&
                        (forall k :: j < k < |p| ==> p[k].entry.exec.None?) ==>
                        Along(current, p).exec == p[j].entry.exec.value
    decreases p
  {
    if |p| > 0 {
      var rest := p[1..];
      AlongExec(Descend(current, p[0]), rest);
      forall j | 0 <= j < |p| && p[j].entry.exec.Some? && (forall k :: j < k < |p| ==> p[k].entry.exec.None?)
        ensures Along(current, p).exec == p[j].entry.exec.value
      {
        if j == 0 {
          assert forall k :: 0 <= k < |rest| ==> rest[k] == p[k + 1];
        } else {
          assert rest[j - 1] == p[j];
          assert forall k :: j - 1 < k < |rest| ==> rest[k] == p[k + 1];
        }
      }
      if forall j :: 0 <= j < |p| ==> p[j].entry.exec.None? {
        assert forall j :: 0 <= j < |rest| ==> rest[j] == p[j + 1];
      }
    }
  }

  /** `path` along a path: inherited when no node declares one, and the last
      declared value itself when that value does not start with `+`. */
  lemma {:induction false} AlongPath(current: Entry, p: seq<Child>)
    ensures (forall j :: 0 <= j < |p| ==> p[j].entry.path.None?) ==> Along(current, p).path == current.path
    ensures forall j :: 0 <= j < |p| && p[j].entry.path.Some? &&
                        (p[j].entry.path.value == [] || p[j].entry.path.value[0] != '+') &&
                        (forall k :: j < k < |p| ==> p[k].entry.path.None?) ==>
                        Along(current, p).path == p[j].entry.path.value
    decreases p
  {
    if |p| > 0 {
      var rest := p[1..];
      AlongPath(Descend(current, p[0]), rest);
      forall j | 0 <= j < |p| && p[j].entry.path.Some? &&
                 (p[j].entry.path.value == [] || p[j].entry.path.value[0] != '+') &&
                 (forall k :: j < k < |p| ==> p[k].entry.path.None?)
        ensures Along(current, p).path == p[j].entry.path.value
      {
        if j == 0 {
          assert forall k :: 0 <= k < |rest| ==> rest[k] == p[k + 1];
        } else {
          assert rest[j - 1] == p[j];
          assert forall k :: j - 1 < k < |rest| ==> rest[k] == p[k + 1];
        }
      }
      if forall j :: 0 <= j < |p| ==> p[j].entry.path.None? {
        assert forall j :: 0 <= j < |rest| ==> rest[j] == p[j + 1];
      }
    }
  }

  // ------------------------------------------------------- breadcrumb chains

  /** Each breadcrumb's cumulative key is a prefix of the next one's. */
  predicate Chained(crumbs: seq<(string, string)>)
  {
    forall j :: 0 <= j < |crumbs| - 1 ==> crumbs[j].1 <= crumbs[j + 1].1
  }

  /** The breadcrumbs of a path form a chain ending at the full key. */
  lemma {:induction false} CrumbsChain(key0: string, p: seq<Child>)
    requires |p| > 0
    ensures Chained(Crumbs(key0, p))
    ensures Crumbs(key0, p)[|p| - 1].1 == key0 + Keys(p)
    decreases p
  {
    var k1 := key0 + p[0].entry.key;
    var rest := p[1..];
    CrumbsCons(key0, p);
    var crumbs := Crumbs(key0, p);
    var tail := Crumbs(k1, rest);
    assert key0 + Keys(p) == k1 + Keys(rest);
    if |rest| == 0 {
      assert Keys(rest) == [];
    } else {
      CrumbsChain(k1, rest);
      CrumbsCons(k1, rest);
      assert k1 <= tail[0].1 by {
        assert (k1 + rest[0].entry.key)[..|k1|] == k1;
      }
      forall j | 0 <= j < |crumbs| - 1
        ensures crumbs[j].1 <= crumbs[j + 1].1
      {
        if j > 0 {
          assert crumbs[j] == tail[j - 1] && crumbs[j + 1] == tail[j];
        }
      }
      assert crumbs[|p| - 1] == tail[|rest| - 1];
    }
  }

  // ----------------------------------------------------- the whole statement

  /** A successful walk yields one finished entry per leaf path, in order,
      each the accumulator descended along that path, with a non-empty exec. */
  lemma LeafEntries(current: Entry, children: seq<Child>)
    requires Flatten(current, children).Ok?
    ensures var es := Flatten(current, children).value;
            var ps := Paths(children);
            && |es| == |ps|
            && forall i :: 0 <= i < |ps| ==>
                 es[i] == Finish(Along(current, ps[i])) && Along(current, ps[i]).exec != ""
  {
    FlattenMatchesLeaves(current, children);
  }

  /** Each entry `get_entries` accepts comes from one leaf path of the
      configuration tree, in pre-order: its key is the path's key fragments
      concatenated, its name one `" > label"` per node, its breadcrumbs one
      `(label, cumulative key)` per node forming a chain that ends at the
      key, its args and env the global ones followed by the nodes' own, its
      display strings the joined args and env names, and its exec non-empty. */
  lemma EntryShape(config: ConfigFile, i: nat)
    requires EntriesOf(config).Ok? && i < |EntriesOf(config).value|
    ensures var es := EntriesOf(config).value;
            var ps := Paths(config.entries);
            var root := Root(config.global);
            && |es| == |ps| && IsLeafPath(config.entries, ps[i])
            && es[i].key == Keys(ps[i])
            && es[i].name == Labels(ps[i])
            && es[i].breadcrumbs == Crumbs("", ps[i])
            && Chained(es[i].breadcrumbs)
            && es[i].breadcrumbs[|es[i].breadcrumbs| - 1].1 == es[i].key
            && es[i].args == root.args + OwnArgs(ps[i])
            && es[i].env == root.env + OwnEnv(ps[i])
            && es[i].argstr == Join(es[i].args, " ")
            && es[i].envstr == Join(EnvNames(es[i].env), ",")
            && es[i].exec != ""
  {
    var root := Root(config.global);
    var es := EntriesOf(config).value;
    var ps := Paths(config.entries);
    LeafEntries(root, config.entries);
    PathsAreLeafPaths(config.entries);
    var p := ps[i];
    assert p in ps;
    var leaf := Along(root, p);
    assert es[i] == Finish(leaf);
    AlongFields(root, p);
    AlongArgs(root, p);
    AlongEnv(root, p);
    AlongCrumbs(root, p);
    CrumbsChain("", p);
    assert leaf.breadcrumbs == Crumbs("", p);
  }

  /** Every accepted entry carries a non-empty breadcrumb chain ending at its
      key (the shape the render's breadcrumb highlighting relies on). */
  lemma EntriesChained(config: ConfigFile)
    requires EntriesOf(config).Ok?
    ensures forall e :: e in EntriesOf(config).value ==>
              |e.breadcrumbs| > 0 && Chained(e.breadcrumbs) && e.breadcrumbs[|e.breadcrumbs| - 1].1 == e.key
  {
    var es := EntriesOf(config).value;
    forall e | e in es
      ensures |e.breadcrumbs| > 0 && Chained(e.breadcrumbs) && e.breadcrumbs[|e.breadcrumbs| - 1].1 == e.key
    {
      var i :| 0 <= i < |es| && es[i] == e;
      EntryShape(config, i);
      PathsAreLeafPaths(config.entries);
      assert Paths(config.entries)[i] in Paths(config.entries);
    }
  }
}
