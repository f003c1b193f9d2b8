/**
 * The launcher's interactive loop (src/main.rs:79-103) as a state machine
 * over a finite list of key events: before reading each event the loop looks
 * for an entry whose key equals the prompt and launches it; otherwise one
 * event goes through `input_ui`, and a stop request ends the loop. Drawing,
 * terminal setup, path expansion and process spawning are left to the
 * caller.
 */
module Navigation {
  import opened Wrappers
  import opened Entries
  import opened Ui

  /** `entries.iter().find(|entry| entry.key == current)`: the first entry
      whose key is exactly the prompt. */
  function FindExact(entries: seq<Entry>, prompt: string): (found: Option<Entry>)
    ensures found.None? <==> forall i :: 0 <= i < |entries| ==> entries[i].key != prompt
    ensures found.Some? ==>
              exists i :: 0 <= i < |entries| && entries[i] == found.value && found.value.key == prompt &&
                          (forall k :: 0 <= k < i ==> entries[k].key != prompt)
  {
    if |entries| == 0 then None
    else if entries[0].key == prompt then Some(entries[0])
    else
      var found := FindExact(entries[1..], prompt);
      assert forall i :: 1 <= i < |entries| ==> entries[i] == entries[1..][i - 1];
      found
  }

  /** How the loop ends: an entry to launch, a stop request, or the events
      running out while the loop waits for the next one. */
  datatype Outcome = Launch(entry: Entry) | Cancelled | Waiting(prompt: string)

  /** The loop from `prompt` on, fed `events`. */
  function Run(entries: seq<Entry>, prompt: string, events: seq<KeyEvent>): Outcome
    decreases |events|
  {
    match FindExact(entries, prompt)
    case Some(found) => Launch(found)
    case None =>
      if |events| == 0 then Waiting(prompt)
      else
        var step := Next(entries, prompt, events[0]);
        if step.stop then Cancelled else Run(entries, step.prompt, events[1..])
  }

  /** The interactive loop of `main`: check for an exact match, then read
      one event into the prompt; a stop request ends the loop. */
  method Navigate(entries: seq<Entry>, events: seq<KeyEvent>) returns (outcome: Outcome)
    ensures outcome == Run(entries, "", events)
  {
    var current := "";
    var i := 0;
    while i < |events|
      invariant 0 <= i <= |events|
      invariant Run(entries, "", events) == Run(entries, current, events[i..])
    {
      var found := FindExact(entries, current);
      if found.Some? {
        return Launch(found.value);
      }
      var next, stop := InputUi(current, entries, events[i]);
      assert events[i..][1..] == events[i + 1..];
      if stop {
        return Cancelled;
      }
      current := next;
      i := i + 1;
    }
    var found := FindExact(entries, current);
    if found.Some? {
      return Launch(found.value);
    }
    outcome := Waiting(current);
  }

  /** From a live prompt the loop only ever launches one of the entries,
      and a loop still waiting has a live prompt: some key starts with it. */
  lemma {:induction false} RunStaysLive(entries: seq<Entry>, prompt: string, events: seq<KeyEvent>)
    requires Live(entries, prompt)
    ensures Run(entries, prompt, events).Waiting? ==> Live(entries, Run(entries, prompt, events).prompt)
    ensures Run(entries, prompt, events).Launch? ==> Run(entries, prompt, events).entry in entries
    decreases |events|
  {
    if FindExact(entries, prompt).None? && |events| > 0 {
      var step := Next(entries, prompt, events[0]);
      NextKeepsLive(entries, prompt, events[0]);
      if !step.stop {
        RunStaysLive(entries, step.prompt, events[1..]);
      }
    }
  }

  /** Esc stops the loop from any prompt that has no exact match. */
  lemma EscCancels(entries: seq<Entry>, prompt: string, events: seq<KeyEvent>)
    requires FindExact(entries, prompt).None?
    ensures Run(entries, prompt, [Esc] + events) == Cancelled
  {
  }

  /** In a prefix-free list the typed prompt identifies the entry to launch:
      every entry whose key starts with it carries the launched entry's name,
      so no other shortcut remains reachable. */
  lemma ExactMatchIsOnlyCandidate(entries: seq<Entry>, prompt: string)
    requires PrefixFree(entries) && FindExact(entries, prompt).Some?
    ensures forall j :: 0 <= j < |entries| && prompt <= entries[j].key ==>
              entries[j].name == FindExact(entries, prompt).value.name
  {
    var e := FindExact(entries, prompt).value;
    var i :| 0 <= i < |entries| && entries[i] == e && e.key == prompt;
    forall j | 0 <= j < |entries| && prompt <= entries[j].key
      ensures entries[j].name == e.name
    {
      assert !Conflicts(entries[i], entries[j]);
    }
  }

  function Shortcut(key: string): Entry
  {
    Entry(key, " > " + key, [(key, key)], "true", "", [], "", [], "")
  }

  /** Three shortcuts `ab`, `ac` and `ba`. */
  function ThreeKeys(): seq<Entry>
  {
    [Shortcut("ab"), Shortcut("ac"), Shortcut("ba")]
  }

  /** Typing `a` then `b` launches `ab`. */
  lemma TypedKeyLaunches()
    ensures Run(ThreeKeys(), "", [CharKey('a', false), CharKey('b', false)]) == Launch(Shortcut("ab"))
  {
    var es := ThreeKeys();
    assert "a" <= es[0].key && "ab" <= es[0].key;
    assert FindExact(es, "") == None;
    assert FindExact(es, "a") == None;
  }

  /** `x` from the empty prompt is refused: no key starts with it, so the
      prompt stays empty and the loop keeps waiting. */
  lemma DeadKeyIgnored()
    ensures Run(ThreeKeys(), "", [CharKey('x', false)]) == Waiting("")
  {
    var es := ThreeKeys();
    assert !Live(es, "x") by {
      forall i | 0 <= i < |es| ensures !("x" <= es[i].key) {
        assert es[i].key[0] != 'x';
      }
    }
    assert FindExact(es, "") == None;
  }

  /** `a`, `c` launches `ac` as soon as `ac` is typed, before a later
      backspace and `b` are read. */
  lemma ExactMatchFirst()
    ensures Run(ThreeKeys(), "", [CharKey('a', false), CharKey('c', false), Backspace, CharKey('b', false)])
            == Launch(Shortcut("ac"))
  {
    var es := ThreeKeys();
    var typed := [CharKey('a', false), CharKey('c', false), Backspace, CharKey('b', false)];
    assert "a" <= es[0].key && "ac" <= es[1].key;
    assert FindExact(es, "") == None;
    assert FindExact(es, "a") == None;
    assert "ab" != "ac";
    assert FindExact(es, "ac") == Some(Shortcut("ac"));
    assert Next(es, "", typed[0]).prompt == "a";
    assert Next(es, "a", typed[1..][0]).prompt == "ac";
    assert typed[1..][1..] == [Backspace, CharKey('b', false)];
  }
}
