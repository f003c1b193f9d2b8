/**
 * Small configurations worked through `get_entries`: the missing-exec
 * error, a prefix conflict, and two sibling keys that are accepted.
 */
module Scenarios {
  import opened Wrappers
  import opened Entries

  function Leaf(key: string, exec: Option<string>, path: Option<string>): RawEntry
  {
    RawEntry(key, exec, path, None, None, [])
  }

  /** A leaf with no `exec` of its own under a global without one is
      refused, naming the leaf. */
  lemma NoExecRefused()
    ensures EntriesOf(ConfigFile(BaseEntry(None, None, None, None), [Child("x", Leaf("x", None, None))]))
            == Err(MissingExec(" > x"))
  {
    var root := Root(BaseEntry(None, None, None, None));
    var children := [Child("x", Leaf("x", None, None))];
    assert Descend(root, children[0]).name == " > x";
    assert Descend(root, children[0]).exec == "";
    assert FlattenChild(root, children[0]) == Err(MissingExec(" > x"));
    assert children[..0] == [];
    assert Flatten(root, children) == Err(MissingExec(" > x"));
  }

  /** Keys `ab` and `abc` under different names: `ab` can never be typed
      without resolving at once, so the configuration is refused on `ab`. */
  lemma PrefixRefused()
    ensures EntriesOf(ConfigFile(BaseEntry(Some("sh"), None, None, None),
                                 [Child("a", Leaf("ab", None, None)), Child("b", Leaf("abc", None, None))]))
            == Err(PrefixConflict("ab"))
  {
    var root := Root(BaseEntry(Some("sh"), None, None, None));
    var es := [Finish(Descend(root, Child("a", Leaf("ab", None, None)))),
               Finish(Descend(root, Child("b", Leaf("abc", None, None))))];
    var children := [Child("a", Leaf("ab", None, None)), Child("b", Leaf("abc", None, None))];
    assert FlattenChild(root, children[0]) == Ok([es[0]]);
    assert FlattenChild(root, children[1]) == Ok([es[1]]);
    assert children[..1] == [children[0]] && children[..1][..0] == [];
    assert Flatten(root, []) == Ok([]);
    assert [] + [es[0]] == [es[0]] && [es[0]] + [es[1]] == es;
    assert Flatten(root, children[..1]) == Then(Ok([]), Ok([es[0]]));
    assert Flatten(root, children) == Then(Ok([es[0]]), Ok([es[1]]));
    assert es[0].name == " > a" && es[1].name == " > b";
    assert es[0].key == "ab" && es[1].key == "abc";
    assert Conflicts(es[0], es[1]);
    assert HasConflict(es, es[0]);
  }

  /** Keys `ab` and `ac` are not prefix-related, so the configuration is
      accepted with both leaves, in declaration order, inheriting `sh`. */
  lemma SiblingsAccepted()
    ensures var r := EntriesOf(ConfigFile(BaseEntry(Some("sh"), None, None, None),
                                          [Child("a", Leaf("ab", None, None)), Child("b", Leaf("ac", None, None))]));
            && r.Ok? && |r.value| == 2
            && r.value[0].key == "ab" && r.value[1].key == "ac"
            && r.value[0].exec == "sh" && r.value[1].exec == "sh"
  {
    var root := Root(BaseEntry(Some("sh"), None, None, None));
    var es := [Finish(Descend(root, Child("a", Leaf("ab", None, None)))),
               Finish(Descend(root, Child("b", Leaf("ac", None, None))))];
    var children := [Child("a", Leaf("ab", None, None)), Child("b", Leaf("ac", None, None))];
    assert FlattenChild(root, children[0]) == Ok([es[0]]);
    assert FlattenChild(root, children[1]) == Ok([es[1]]);
    assert children[..1] == [children[0]] && children[..1][..0] == [];
    assert Flatten(root, []) == Ok([]);
    assert [] + [es[0]] == [es[0]] && [es[0]] + [es[1]] == es;
    assert Flatten(root, children[..1]) == Then(Ok([]), Ok([es[0]]));
    assert Flatten(root, children) == Then(Ok([es[0]]), Ok([es[1]]));
    assert es[0].name == " > a" && es[1].name == " > b";
    assert es[0].key == "ab" && es[1].key == "ac";
    assert es[0].key[1] == 'b' && es[1].key[1] == 'c';
    assert !(es[0].key <= es[1].key) && !(es[1].key <= es[0].key);
    assert PrefixFree(es);
  }
}
