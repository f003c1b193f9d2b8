/**
 * Flattening of the launcher's nested configuration tree into a list of
 * launchable entries (src/entries.rs).
 *
 * The pure functions `Descend`, `Finish`, `FlattenChild`/`Flatten` and
 * `WidenChild`/`Widen` specify what the recursive walk yields and how it
 * moves the column widths; the methods `BuildChild`/`BuildEntries` are the
 * walk itself, cloning an accumulator entry per child and updating a shared
 * `Lengths` object in place, and are proved against those functions.
 */
module Entries {
  import opened Wrappers
  import opened Strings

  /** A deserialized configuration node; `children` keeps declaration order. */
  datatype RawEntry = RawEntry(
    key: string,
    exec: Option<string>,
    path: Option<string>,
    args: Option<seq<string>>,
    env: Option<seq<string>>,
    children: seq<Child>)

  /** One `(label, node)` pair of a node's ordered child mapping. */
  datatype Child = Child(name: string, entry: RawEntry)

  /** The top-level defaults of the configuration file (colours omitted). */
  datatype BaseEntry = BaseEntry(
    exec: Option<string>,
    path: Option<string>,
    args: Option<seq<string>>,
    env: Option<seq<string>>)

  /** A parsed configuration: the defaults and the top-level nodes. */
  datatype ConfigFile = ConfigFile(global: BaseEntry, entries: seq<Child>)

  /** A flattened entry, or the accumulator threaded down the walk. */
  datatype Entry = Entry(
    key: string,
    name: string,
    breadcrumbs: seq<(string, string)>,
    exec: string,
    path: string,
    args: seq<string>,
    argstr: string,
    env: seq<(string, string)>,
    envstr: string)

  /** The two ways a configuration is rejected (the source panics). */
  datatype BuildError = MissingExec(entryName: string) | PrefixConflict(key: string)

  /** The value of a `Lengths` record: one column width per field. */
  datatype Widths = Widths(key: nat, name: nat, args: nat, path: nat, exec: nat, env: nat)

  function Max(a: nat, b: nat): nat { if a < b then b else a }

  // ---------------------------------------------------------------- to_env

  /** One `NAME=VALUE` string as `to_env` reads it: split at every `=`, then
      the first part is the name and the rest are joined back with `=`. */
  function ToEnvVar(s: string): (string, string)
  {
    var parts := Split(s, '=');
    (parts[0], Join(parts[1..], "="))
  }

  /** `to_env`: every string of the list read as `NAME=VALUE`, in order. */
  function ToEnv(env: seq<string>): seq<(string, string)>
  {
    seq(|env|, i requires 0 <= i < |env| => ToEnvVar(env[i]))
  }

  /** `to_env` splits at the first `=`: the value keeps any later `=`, and a
      string with no `=` is all name with an empty value. */
  lemma ToEnvVarSplitsAtFirst(s: string)
    ensures '=' !in s ==> ToEnvVar(s) == (s, "")
    ensures forall k :: 0 <= k < |s| && s[k] == '=' && '=' !in s[..k] ==>
              ToEnvVar(s) == (s[..k], s[k + 1..])
  {
    if '=' !in s {
      SplitWithout(s, '=');
    }
    forall k | 0 <= k < |s| && s[k] == '=' && '=' !in s[..k]
      ensures ToEnvVar(s) == (s[..k], s[k + 1..])
    {
      assert forall i :: 0 <= i < k ==> s[i] == s[..k][i];
      SplitAtFirst(s, '=', k);
      var parts := Split(s, '=');
      assert parts[1..] == Split(s[k + 1..], '=');
    }
  }

  /** `to_env` keeps the strings' order and count, and each pair joined back
      with `=` is the original string whenever that string holds an `=`. */
  lemma ToEnvRoundTrip(env: seq<string>)
    ensures |ToEnv(env)| == |env|
    ensures forall i :: 0 <= i < |env| && '=' in env[i] ==>
              ToEnv(env)[i].0 + "=" + ToEnv(env)[i].1 == env[i]
  {
    forall i | 0 <= i < |env| && '=' in env[i]
      ensures ToEnv(env)[i].0 + "=" + ToEnv(env)[i].1 == env[i]
    {
      var s := env[i];
      var k := FirstIndex(s, '=');
      ToEnvVarSplitsAtFirst(s);
      assert ToEnvVar(s) == (s[..k], s[k + 1..]);
      assert s[..k] + "=" + s[k + 1..] == s;
    }
  }

  // ------------------------------------------------------ one step of the walk

  /** The `path` rule: absent inherits; a value starting with `+` is appended
      to the inherited path with exactly one `/` between them; any other
      value replaces the inherited path. */
  function ResolvePath(inherited: string, own: Option<string>): (r: string)
    ensures own.None? ==> r == inherited
    ensures own.Some? && (own.value == [] || own.value[0] != '+') ==> r == own.value
    ensures own.Some? && own.value != [] && own.value[0] == '+' ==>
              var base := TrimEnd(inherited, '/');
              && base <= inherited && (base == [] || base[|base| - 1] != '/')
              && |r| > |base| && r[..|base|] == base && r[|base|] == '/'
              && r[|base| + 1..] == TrimStart(own.value, {'/', '+'})
              && (|r| == |base| + 1 || r[|base| + 1] !in {'/', '+'})
  {
    match own
    case None => inherited
    case Some(p) =>
      if |p| > 0 && p[0] == '+' then
        var base := TrimEnd(inherited, '/');
        var tail := TrimStart(p, {'/', '+'});
        var r := base + "/" + tail;
        assert r[|base| + 1..] == tail;
        r
      else p
  }

  /** The accumulator for child `c` of a node whose accumulator is `current`:
      label and key fragment appended, breadcrumb pushed, `exec` overridden,
      `path` resolved, `args` and `env` appended (src/entries.rs:110-136). */
  function Descend(current: Entry, c: Child): Entry
  {
    var key := current.key + c.entry.key;
    current.(
      name := current.name + " > " + c.name,
      key := key,
      breadcrumbs := current.breadcrumbs + [(c.name, key)],
      exec := c.entry.exec.UnwrapOr(current.exec),
      path := ResolvePath(current.path, c.entry.path),
      args := current.args + c.entry.args.UnwrapOr([]),
      env := current.env + ToEnv(c.entry.env.UnwrapOr([])))
  }

  /** The names of an environment list, in order. */
  function EnvNames(env: seq<(string, string)>): seq<string>
  {
    seq(|env|, i requires 0 <= i < |env| => env[i].0)
  }

  /** A leaf's display strings: arguments joined by spaces, environment
      names joined by commas. */
  function Finish(e: Entry): Entry
  {
    e.(argstr := Join(e.args, " "), envstr := Join(EnvNames(e.env), ","))
  }

  /** Two results in sequence: the first error, else both lists in order. */
  function Then(a: Result<seq<Entry>, BuildError>, b: Result<seq<Entry>, BuildError>): Result<seq<Entry>, BuildError>
  {
    match a
    case Err(_) => a
    case Ok(xs) =>
      match b
      case Err(_) => b
      case Ok(ys) => Ok(xs + ys)
  }

  // ---------------------------------------------- what the walk yields (functions)

  /** What the walk yields for one child: a single finished entry for a
      leaf (or MissingExec when its resolved exec is empty), and the
      flattening of its own children otherwise. */
  function FlattenChild(current: Entry, c: Child): Result<seq<Entry>, BuildError>
    decreases c, 0
  {
    var next := Descend(current, c);
    if |c.entry.children| == 0 then
      if next.exec == "" then Err(MissingExec(next.name)) else Ok([Finish(next)])
    else Flatten(next, c.entry.children)
  }

  /** What `build_entries` yields for `children` under `current`: the
      children's results concatenated in declaration order, or the first
      error met. */
  function Flatten(current: Entry, children: seq<Child>): Result<seq<Entry>, BuildError>
    decreases children, 1
  {
    if |children| == 0 then Ok([])
    else Then(Flatten(current, children[..|children| - 1]), FlattenChild(current, children[|children| - 1]))
  }

  /** Once a prefix of the children fails, the whole list fails the same way. */
  lemma {:induction false} FlattenPrefixErr(current: Entry, children: seq<Child>, k: nat)
    requires k <= |children| && Flatten(current, children[..k]).Err?
    ensures Flatten(current, children) == Flatten(current, children[..k])
    decreases |children| - k
  {
    if k < |children| {
      assert children[..k + 1][..k] == children[..k];
      FlattenPrefixErr(current, children, k + 1);
    } else {
      assert children[..k] == children;
    }
  }

  // --------------------------------------------- how the widths move (functions)

  /** The widths measured at every node: name, key, exec and path. */
  function Grow(w: Widths, e: Entry): Widths
  {
    w.(name := Max(w.name, |e.name|), key := Max(w.key, |e.key|),
       exec := Max(w.exec, |e.exec|), path := Max(w.path, |e.path|))
  }

  /** The widths measured at leaves only: argstr and envstr. */
  function GrowLeaf(w: Widths, e: Entry): Widths
  {
    w.(args := Max(w.args, |e.argstr|), env := Max(w.env, |e.envstr|))
  }

  /** The widths after the walk has gone through child `c` successfully. */
  function WidenChild(w: Widths, current: Entry, c: Child): Widths
    decreases c, 0
  {
    var next := Descend(current, c);
    var w1 := Grow(w, next);
    if |c.entry.children| == 0 then
      if next.exec == "" then w1 else GrowLeaf(w1, Finish(next))
    else Widen(w1, next, c.entry.children)
  }

  /** The widths after the walk has gone through all of `children`. */
  function Widen(w: Widths, current: Entry, children: seq<Child>): Widths
    decreases children, 1
  {
    if |children| == 0 then w
    else WidenChild(Widen(w, current, children[..|children| - 1]), current, children[|children| - 1])
  }

  /** Every width of `w2` is at least that of `w1`. */
  predicate AtLeast(w2: Widths, w1: Widths)
  {
    w2.key >= w1.key && w2.name >= w1.name && w2.args >= w1.args &&
    w2.path >= w1.path && w2.exec >= w1.exec && w2.env >= w1.env
  }

  /** Every displayed field of `e` fits its column in `w`. */
  predicate Fits(e: Entry, w: Widths)
  {
    |e.key| <= w.key && |e.name| <= w.name && |e.exec| <= w.exec &&
    |e.path| <= w.path && |e.argstr| <= w.args && |e.envstr| <= w.env
  }

  /** The walk only widens, and every entry it yields fits the final widths. */
  lemma {:induction false} WidenChildBounds(w: Widths, current: Entry, c: Child)
    ensures AtLeast(WidenChild(w, current, c), w)
    ensures FlattenChild(current, c).Ok? ==>
              forall e :: e in FlattenChild(current, c).value ==> Fits(e, WidenChild(w, current, c))
    decreases c, 0
  {
    var next := Descend(current, c);
    var w1 := Grow(w, next);
    assert AtLeast(w1, w);
    if |c.entry.children| > 0 {
      WidenBounds(w1, next, c.entry.children);
    } else if next.exec != "" {
      var leaf := Finish(next);
      assert FlattenChild(current, c) == Ok([leaf]);
      assert Fits(leaf, GrowLeaf(w1, leaf));
    }
  }

  /** The walk only widens, and every entry it yields fits the final widths. */
  lemma {:induction false} WidenBounds(w: Widths, current: Entry, children: seq<Child>)
    ensures AtLeast(Widen(w, current, children), w)
    ensures Flatten(current, children).Ok? ==>
              forall e :: e in Flatten(current, children).value ==> Fits(e, Widen(w, current, children))
    decreases children, 1
  {
    if |children| > 0 {
      var init, last := children[..|children| - 1], children[|children| - 1];
      var w1 := Widen(w, current, init);
      WidenBounds(w, current, init);
      WidenChildBounds(w1, current, last);
    }
  }

  // ------------------------------------------------------- the walk (method)

  /** The mutable `Lengths` record shared by the whole walk. */
  class Lengths {
    var key: nat
    var name: nat
    var args: nat
    var path: nat
    var exec: nat
    var env: nat

    /** `Lengths::default()`: every width zero. */
    constructor ()
      ensures Value() == Widths(0, 0, 0, 0, 0, 0)
    {
      key, name, args, path, exec, env := 0, 0, 0, 0, 0, 0;
    }

    function Value(): Widths
      reads this
    {
      Widths(key, name, args, path, exec, env)
    }
  }

  /** The closure body of `build_entries` for one child: clone the
      accumulator, extend it step by step while widening `lengths`, then
      finish a leaf or recurse into the child's own children. */
  method BuildChild(current: Entry, c: Child, lengths: Lengths) returns (r: Result<seq<Entry>, BuildError>)
    modifies lengths
    ensures r == FlattenChild(current, c)
    ensures r.Ok? ==> lengths.Value() == WidenChild(old(lengths.Value()), current, c)
    decreases c, 0
  {
    var toAdd := current;
    toAdd := toAdd.(name := toAdd.name + " > " + c.name);
    lengths.name := Max(lengths.name, |toAdd.name|);
    toAdd := toAdd.(key := toAdd.key + c.entry.key);
    toAdd := toAdd.(breadcrumbs := toAdd.breadcrumbs + [(c.name, toAdd.key)]);
    lengths.key := Max(lengths.key, |toAdd.key|);
    toAdd := toAdd.(exec := c.entry.exec.UnwrapOr(toAdd.exec));
    lengths.exec := Max(lengths.exec, |toAdd.exec|);
    toAdd := toAdd.(path := ResolvePath(toAdd.path, c.entry.path));
    lengths.path := Max(lengths.path, |toAdd.path|);
    toAdd := toAdd.(args := toAdd.args + c.entry.args.UnwrapOr([]));
    toAdd := toAdd.(env := toAdd.env + ToEnv(c.entry.env.UnwrapOr([])));
    assert toAdd == Descend(current, c);

    if |c.entry.children| == 0 {
      if toAdd.exec == "" {
        return Err(MissingExec(toAdd.name));
      }
      toAdd := toAdd.(argstr := Join(toAdd.args, " "));
      lengths.args := Max(lengths.args, |toAdd.argstr|);
      toAdd := toAdd.(envstr := Join(EnvNames(toAdd.env), ","));
      lengths.env := Max(lengths.env, |toAdd.envstr|);
      r := Ok([toAdd]);
    } else {
      r := BuildEntries(toAdd, c.entry.children, lengths);
    }
  }

  /** `build_entries`: every child in declaration order, their entries
      concatenated; the first failing child stops the walk. */
  method BuildEntries(current: Entry, children: seq<Child>, lengths: Lengths) returns (r: Result<seq<Entry>, BuildError>)
    modifies lengths
    ensures r == Flatten(current, children)
    ensures r.Ok? ==> lengths.Value() == Widen(old(lengths.Value()), current, children)
    decreases children, 1
  {
    var out: seq<Entry> := [];
    var i := 0;
    while i < |children|
      invariant 0 <= i <= |children|
      invariant Flatten(current, children[..i]) == Ok(out)
      invariant lengths.Value() == Widen(old(lengths.Value()), current, children[..i])
    {
      assert children[..i + 1][..i] == children[..i];
      var one := BuildChild(current, children[i], lengths);
      if one.Err? {
        FlattenPrefixErr(current, children, i + 1);
        return one;
      }
      out := out + one.value;
      i := i + 1;
    }
    assert children[..i] == children;
    r := Ok(out);
  }

  // ------------------------------------------------- get_entries and conflicts

  /** `elt2` makes `elt` ambiguous: a different name, and `elt`'s key is a
      prefix of (or equal to) `elt2`'s. */
  predicate Conflicts(elt: Entry, elt2: Entry)
  {
    elt.name != elt2.name && elt.key <= elt2.key
  }

  /** The inner `any`: some entry of the list conflicts with `elt`. */
  predicate HasConflict(entries: seq<Entry>, elt: Entry)
  {
    exists j :: 0 <= j < |entries| && Conflicts(elt, entries[j])
  }

  /** No two entries with different names have prefix-related keys, in
      either order. */
  predicate PrefixFree(entries: seq<Entry>)
  {
    forall i, j :: 0 <= i < |entries| && 0 <= j < |entries| ==> !Conflicts(entries[i], entries[j])
  }

  /** The position of the first entry, from `i` on, that some entry
      conflicts with; `|entries|` when there is none. */
  function FirstConflictFrom(entries: seq<Entry>, i: nat): (k: nat)
    requires i <= |entries|
    ensures i <= k <= |entries|
    ensures forall m :: i <= m < k ==> !HasConflict(entries, entries[m])
    ensures k < |entries| ==> HasConflict(entries, entries[k])
    decreases |entries| - i
  {
    if i == |entries| || HasConflict(entries, entries[i]) then i
    else FirstConflictFrom(entries, i + 1)
  }

  /** The outer `find`: the first entry that some other entry conflicts
      with. It finds nothing exactly when the list is prefix-free, so the
      check covers every ordered pair. */
  function FindConflict(entries: seq<Entry>): (found: Option<Entry>)
    ensures found.None? <==> PrefixFree(entries)
    ensures found.Some? ==>
              exists k :: 0 <= k < |entries| && found.value == entries[k] &&
                          HasConflict(entries, entries[k]) &&
                          (forall m :: 0 <= m < k ==> !HasConflict(entries, entries[m]))
  {
    var k := FirstConflictFrom(entries, 0);
    if k < |entries| then Some(entries[k]) else None
  }

  /** The root accumulator seeded from the global defaults. */
  function Root(global: BaseEntry): Entry
  {
    Entry("", "", [], global.exec.UnwrapOr(""), global.path.UnwrapOr(""),
          global.args.UnwrapOr([]), "", ToEnv(global.env.UnwrapOr([])), "")
  }

  /** What `get_entries` yields: the flattened entries when they are
      prefix-free, PrefixConflict on the first entry that another one
      conflicts with, or the flattening's own error. */
  function EntriesOf(config: ConfigFile): (r: Result<seq<Entry>, BuildError>)
    ensures r.Ok? <==> Flatten(Root(config.global), config.entries).Ok? &&
                       PrefixFree(Flatten(Root(config.global), config.entries).value)
    ensures r.Ok? ==> r.value == Flatten(Root(config.global), config.entries).value
    ensures r.Err? && Flatten(Root(config.global), config.entries).Ok? ==>
              var es := Flatten(Root(config.global), config.entries).value;
              r.error.PrefixConflict? &&
              exists i, j :: 0 <= i < |es| && 0 <= j < |es| && Conflicts(es[i], es[j]) &&
                             r.error.key == es[i].key
    ensures Flatten(Root(config.global), config.entries).Err? ==> r == Flatten(Root(config.global), config.entries)
  {
    match Flatten(Root(config.global), config.entries)
    case Err(e) => Err(e)
    case Ok(es) =>
      match FindConflict(es)
      case Some(found) => Err(PrefixConflict(found.key))
      case None => Ok(es)
  }

  /** `get_entries`: seed the root, walk the tree with fresh zero widths,
      then reject prefix conflicts. Every entry returned fits the widths. */
  method GetEntries(config: ConfigFile) returns (r: Result<seq<Entry>, BuildError>, lengths: Lengths)
    ensures fresh(lengths)
    ensures r == EntriesOf(config)
    ensures r.Ok? ==> lengths.Value() == Widen(Widths(0, 0, 0, 0, 0, 0), Root(config.global), config.entries)
    ensures r.Ok? ==> forall e :: e in r.value ==> Fits(e, lengths.Value())
  {
    var base := Root(config.global);
    lengths := new Lengths();
    var entries := BuildEntries(base, config.entries, lengths);
    if entries.Err? {
      return entries, lengths;
    }
    WidenBounds(Widths(0, 0, 0, 0, 0, 0), base, config.entries);
    var found := FindConflict(entries.value);
    if found.Some? {
      return Err(PrefixConflict(found.value.key)), lengths;
    }
    r := entries;
  }
}
