/**
 * The terminal front end of the launcher (src/ui.rs), without the terminal:
 * the `#rrggbb` colour parser, the one-event input transition on the prompt,
 * and the projection of the entries onto display rows that `render_ui`
 * hands to the drawing library.
 */
module Ui {
  import opened Wrappers
  import opened Entries
  import opened Flattening

  // ------------------------------------------------------------ colours

  type Byte = x: int | 0 <= x < 256

  datatype RGBColor = RGBColor(r: Byte, g: Byte, b: Byte)

  /** Why a colour string was refused (each a panic in the source). */
  datatype ColorError = WrongLength | MissingHash | NotANumber

  predicate IsHexDigit(ch: char)
  {
    '0' <= ch <= '9' || 'a' <= ch <= 'f' || 'A' <= ch <= 'F'
  }

  function HexValue(ch: char): (v: nat)
    requires IsHexDigit(ch)
    ensures v < 16
  {
    if '0' <= ch <= '9' then ch as int - '0' as int
    else if 'a' <= ch <= 'f' then ch as int - 'a' as int + 10
    else ch as int - 'A' as int + 10
  }

  /** `u8::from_str_radix(p, 16)` on a two-character string: an optional
      leading `+` followed by hexadecimal digits of either case. */
  function ParseByte(p: string): (r: Option<Byte>)
    requires |p| == 2
    ensures r.Some? <==> (p[0] == '+' && IsHexDigit(p[1])) || (IsHexDigit(p[0]) && IsHexDigit(p[1]))
    ensures r.Some? ==> r.value == if p[0] == '+' then HexValue(p[1]) else 16 * HexValue(p[0]) + HexValue(p[1])
  {
    if p[0] == '+' then
      if IsHexDigit(p[1]) then Some(HexValue(p[1])) else None
    else if IsHexDigit(p[0]) && IsHexDigit(p[1]) then Some(16 * HexValue(p[0]) + HexValue(p[1]))
    else None
  }

  /** `Into<RGBColor> for &str`: a 7-character `#rrggbb` string, the three
      pairs read as hexadecimal bytes. */
  function ParseColor(s: string): (r: Result<RGBColor, ColorError>)
    ensures |s| != 7 ==> r == Err(WrongLength)
    ensures |s| == 7 && s[0] != '#' ==> r == Err(MissingHash)
    ensures r.Ok? ==> |s| == 7 && s[0] == '#' &&
                      Some(r.value.r) == ParseByte(s[1..3]) &&
                      Some(r.value.g) == ParseByte(s[3..5]) &&
                      Some(r.value.b) == ParseByte(s[5..])
    ensures |s| == 7 && s[0] == '#' ==>
              (r.Ok? <==> ParseByte(s[1..3]).Some? && ParseByte(s[3..5]).Some? && ParseByte(s[5..]).Some?)
  {
    if |s| != 7 then Err(WrongLength)
    else if s[..1] != "#" then
      assert s[..1][0] == s[0];
      Err(MissingHash)
    else
      assert s[0] == s[..1][0];
      match (ParseByte(s[1..3]), ParseByte(s[3..5]), ParseByte(s[5..]))
      case (Some(r), Some(g), Some(b)) => Ok(RGBColor(r, g, b))
      case _ => Err(NotANumber)
  }

  /** The lower-case hexadecimal digit of `v`. */
  function HexDigit(v: nat): (ch: char)
    requires v < 16
    ensures IsHexDigit(ch) && HexValue(ch) == v
  {
    "0123456789abcdef"[v]
  }

  /** The `#rrggbb` spelling of a colour. */
  function FormatColor(c: RGBColor): string
  {
    ['#', HexDigit(c.r / 16), HexDigit(c.r % 16), HexDigit(c.g / 16),
     HexDigit(c.g % 16), HexDigit(c.b / 16), HexDigit(c.b % 16)]
  }

  /** Parsing the `#rrggbb` spelling of any colour gives the colour back. */
  lemma ParseFormatRoundTrip(c: RGBColor)
    ensures ParseColor(FormatColor(c)) == Ok(c)
  {
    var s := FormatColor(c);
    assert s[1..3] == [HexDigit(c.r / 16), HexDigit(c.r % 16)];
    assert s[3..5] == [HexDigit(c.g / 16), HexDigit(c.g % 16)];
    assert s[5..] == [HexDigit(c.b / 16), HexDigit(c.b % 16)];
  }

  /** A hexadecimal letter folded to lower case; any other character kept. */
  function LowerHex(ch: char): char
  {
    if 'A' <= ch <= 'F' then (ch as int - 'A' as int + 'a' as int) as char else ch
  }

  function LowerAll(s: string): string
  {
    seq(|s|, i requires 0 <= i < |s| => LowerHex(s[i]))
  }

  /** A pair parses to the same byte whatever the case of its letters. */
  lemma ParseByteIgnoresCase(p: string)
    requires |p| == 2
    ensures ParseByte([LowerHex(p[0]), LowerHex(p[1])]) == ParseByte(p)
  {
  }

  /** Upper- and lower-case spellings of a colour parse alike: the same
      colour, or the same refusal. */
  lemma ParseColorIgnoresCase(s: string)
    ensures ParseColor(LowerAll(s)) == ParseColor(s)
  {
    var t := LowerAll(s);
    if |s| == 7 {
      assert t[0] == '#' <==> s[0] == '#';
      assert t[1..3] == [LowerHex(s[1..3][0]), LowerHex(s[1..3][1])];
      assert t[3..5] == [LowerHex(s[3..5][0]), LowerHex(s[3..5][1])];
      assert t[5..] == [LowerHex(s[5..][0]), LowerHex(s[5..][1])];
      ParseByteIgnoresCase(s[1..3]);
      ParseByteIgnoresCase(s[3..5]);
      ParseByteIgnoresCase(s[5..]);
    }
  }

  /** The six colours of `UiStyle::default()` are well formed, so building
      the default style never panics. */
  lemma DefaultStyleParses()
    ensures ParseColor("#121212") == Ok(RGBColor(0x12, 0x12, 0x12))
    ensures ParseColor("#cec0af") == Ok(RGBColor(0xce, 0xc0, 0xaf))
    ensures ParseColor("#bf6601") == Ok(RGBColor(0xbf, 0x66, 0x01))
    ensures ParseColor("#191511") == Ok(RGBColor(0x19, 0x15, 0x11))
    ensures ParseColor("#663702") == Ok(RGBColor(0x66, 0x37, 0x02))
    ensures ParseColor("#222222") == Ok(RGBColor(0x22, 0x22, 0x22))
  {
    assert "#121212"[1..3] == "12" && "#121212"[3..5] == "12" && "#121212"[5..] == "12";
    assert "#cec0af"[1..3] == "ce" && "#cec0af"[3..5] == "c0" && "#cec0af"[5..] == "af";
    assert "#bf6601"[1..3] == "bf" && "#bf6601"[3..5] == "66" && "#bf6601"[5..] == "01";
    assert "#191511"[1..3] == "19" && "#191511"[3..5] == "15" && "#191511"[5..] == "11";
    assert "#663702"[1..3] == "66" && "#663702"[3..5] == "37" && "#663702"[5..] == "02";
    assert "#222222"[1..3] == "22" && "#222222"[3..5] == "22" && "#222222"[5..] == "22";
  }

  /** Rust's radix parser takes a leading `+`, so a pair `+d` is the single
      digit `d`: `#+f+f+f` is accepted as (15, 15, 15), while `#-f-f-f` and
      `#12345g` are refused. */
  lemma SignedPairs()
    ensures ParseColor("#+f+f+f") == Ok(RGBColor(15, 15, 15))
    ensures ParseColor("#-f-f-f") == Err(NotANumber)
    ensures ParseColor("#12345g") == Err(NotANumber)
    ensures ParseColor("121212") == Err(WrongLength)
    ensures ParseColor("x121212") == Err(MissingHash)
  {
    assert "#+f+f+f"[1..3] == "+f" && "#+f+f+f"[3..5] == "+f" && "#+f+f+f"[5..] == "+f";
    assert "#-f-f-f"[1..3] == "-f";
    assert "#12345g"[5..] == "5g";
  }

  // ------------------------------------------------------------- input

  /** A terminal event as `input_ui` distinguishes it. */
  datatype KeyEvent =
    | CharKey(ch: char, control: bool)   // a character key; `control` is the Control modifier
    | Backspace
    | Esc
    | OtherKey                           // any other key code
    | NotAKey                            // mouse, resize and other non-key events

  /** The prompt after one event, and whether the event asked to stop. */
  datatype Input = Input(prompt: string, stop: bool)

  /** Some entry's key starts with `p`. */
  predicate Live(entries: seq<Entry>, p: string)
  {
    exists i :: 0 <= i < |entries| && p <= entries[i].key
  }

  /** What `input_ui` does with one event. */
  function Next(entries: seq<Entry>, prompt: string, ev: KeyEvent): (r: Input)
    ensures (ev == Esc || ev == CharKey('c', true)) ==> r == Input(prompt, true)
    ensures ev.CharKey? && !(ev.ch == 'c' && ev.control) ==>
              !r.stop &&
              (r.prompt == prompt + [ev.ch] <==> Live(entries, prompt + [ev.ch])) &&
              (r.prompt != prompt + [ev.ch] ==> r.prompt == prompt)
    ensures ev == Backspace ==>
              !r.stop && (prompt == [] ==> r.prompt == []) &&
              (prompt != [] ==> r.prompt + [prompt[|prompt| - 1]] == prompt)
    ensures (ev == OtherKey || ev == NotAKey) ==> r == Input(prompt, false)
  {
    match ev
    case CharKey(ch, control) =>
      if ch == 'c' && control then Input(prompt, true)
      else
        var p := prompt + [ch];
        if Live(entries, p) then Input(p, false) else Input(prompt, false)
    case Backspace =>
      if |prompt| == 0 then Input(prompt, false) else Input(prompt[..|prompt| - 1], false)
    case Esc => Input(prompt, true)
    case OtherKey => Input(prompt, false)
    case NotAKey => Input(prompt, false)
  }

  /** With at least one entry, the empty starting prompt is live. */
  lemma EmptyPromptLive(entries: seq<Entry>)
    requires |entries| > 0
    ensures Live(entries, "")
  {
    assert "" <= entries[0].key;
  }

  /** No event makes a live prompt dead: the prompt always stays a prefix
      of some entry's key. */
  lemma NextKeepsLive(entries: seq<Entry>, prompt: string, ev: KeyEvent)
    requires Live(entries, prompt)
    ensures Live(entries, Next(entries, prompt, ev).prompt)
  {
    if ev == Backspace && |prompt| > 0 {
      var i :| 0 <= i < |entries| && prompt <= entries[i].key;
      assert prompt[..|prompt| - 1] <= entries[i].key;
    }
  }

  /** `input_ui`: one event against the prompt; returns the prompt that
      the source writes back through `&mut`, a typed character only after
      the candidate prompt has been checked. */
  method InputUi(prompt: string, entries: seq<Entry>, ev: KeyEvent) returns (newPrompt: string, stop: bool)
    ensures Input(newPrompt, stop) == Next(entries, prompt, ev)
    ensures Live(entries, prompt) ==> Live(entries, newPrompt)
  {
    newPrompt, stop := prompt, false;
    if ev.CharKey? && ev.ch == 'c' && ev.control {
      return prompt, true;
    }
    if ev == Backspace {
      newPrompt := if |prompt| == 0 then "" else prompt[..|prompt| - 1];
      if Live(entries, prompt) {
        NextKeepsLive(entries, prompt, ev);
      }
      return;
    }
    if ev == Esc {
      return prompt, true;
    }
    if ev.CharKey? {
      var p := prompt;
      p := p + [ev.ch];
      if Live(entries, p) {
        newPrompt := p;
      }
    }
  }

  // ------------------------------------------------------------- render

  /** One breadcrumb as drawn: its label, whether it is highlighted as
      already typed, and the separator after it. */
  datatype Crumb = Crumb(text: string, onPath: bool, separator: string)

  /** One list row as drawn, colours replaced by the flags that pick them. */
  datatype Row = Row(
    relevant: bool,       // the key starts with the prompt
    typed: string,        // the key part drawn in the highlight accent
    untyped: string,      // the key part drawn in the foreground colour
    keyPad: int,          // spaces after the key
    crumbs: seq<Crumb>,
    namePad: int,         // spaces after the breadcrumbs
    exec: string,
    argstr: string,
    path: string,
    gap: nat,             // spaces between the path and the env names
    envstr: string,
    emphasised: bool)     // highlight background rather than the normal one

  /** `a.saturating_sub(b)` on unsigned integers. */
  function SaturatingSub(a: nat, b: nat): nat
  {
    if a < b then 0 else a - b
  }

  /** The breadcrumbs of one row: highlighted when the row is relevant and
      the prompt already covers the breadcrumb's cumulative key, and a
      `" > "` separator after all but the last. */
  function RenderCrumbs(prompt: string, relevant: bool, breadcrumbs: seq<(string, string)>): (cs: seq<Crumb>)
    ensures |cs| == |breadcrumbs|
    ensures forall j :: 0 <= j < |cs| ==>
              cs[j].text == breadcrumbs[j].0 &&
              (cs[j].onPath <==> relevant && breadcrumbs[j].1 <= prompt) &&
              (cs[j].separator == "" <==> j == |cs| - 1)
  {
    seq(|breadcrumbs|, idx requires 0 <= idx < |breadcrumbs| =>
      Crumb(breadcrumbs[idx].0, breadcrumbs[idx].1 <= prompt && relevant,
            if idx == |breadcrumbs| - 1 then "" else " > "))
  }

  /** The row of one entry. */
  function RenderRow(prompt: string, e: Entry, w: Widths): (row: Row)
    ensures row.relevant <==> prompt <= e.key
    ensures row.typed + row.untyped == e.key
    ensures row.typed == if row.relevant then prompt else ""
    ensures row.emphasised <==> row.relevant && |prompt| > 0
    ensures row.crumbs == RenderCrumbs(prompt, row.relevant, e.breadcrumbs)
    ensures row.exec == e.exec && row.argstr == e.argstr && row.path == e.path && row.envstr == e.envstr
  {
    var relevant := prompt <= e.key;
    var typed := if relevant then e.key[..|prompt|] else "";
    var untyped := if relevant then e.key[|prompt|..] else e.key;
    assert typed + untyped == e.key;
    Row(relevant, typed, untyped,
        w.key - |e.key| + 2,
        RenderCrumbs(prompt, relevant, e.breadcrumbs),
        w.name - |e.name| + 2,
        e.exec, e.argstr, e.path,
        SaturatingSub(w.exec + w.args + w.path + 1, |e.exec| + |e.argstr| + |e.path| + 1),
        e.envstr,
        relevant && |prompt| > 0)
  }

  /** The rows `render_ui` draws: one per entry, in the entries' order;
      filtering only marks rows, it never drops or moves them. */
  function Render(prompt: string, entries: seq<Entry>, w: Widths): (rows: seq<Row>)
    ensures |rows| == |entries|
    ensures forall i :: 0 <= i < |entries| ==> rows[i] == RenderRow(prompt, entries[i], w)
  {
    seq(|entries|, i requires 0 <= i < |entries| => RenderRow(prompt, entries[i], w))
  }

  /** Along a breadcrumb chain, earlier cumulative keys are prefixes of
      later ones. */
  lemma {:induction false} ChainedPrefix(crumbs: seq<(string, string)>, j: nat, k: nat)
    requires Chained(crumbs) && j <= k < |crumbs|
    ensures crumbs[j].1 <= crumbs[k].1
    decreases k - j
  {
    if j < k {
      ChainedPrefix(crumbs, j + 1, k);
    }
  }

  /** On a breadcrumb chain the highlighted breadcrumbs form a leading run:
      a highlighted breadcrumb has only highlighted ones before it. */
  lemma HighlightedCrumbsLead(prompt: string, relevant: bool, breadcrumbs: seq<(string, string)>)
    requires Chained(breadcrumbs)
    ensures var cs := RenderCrumbs(prompt, relevant, breadcrumbs);
            forall j, k :: 0 <= j <= k < |cs| && cs[k].onPath ==> cs[j].onPath
  {
    var cs := RenderCrumbs(prompt, relevant, breadcrumbs);
    forall j, k | 0 <= j <= k < |cs| && cs[k].onPath
      ensures cs[j].onPath
    {
      ChainedPrefix(breadcrumbs, j, k);
    }
  }

  /** For an entry that fits the widths, the paddings are at least two
      spaces, and `|key| + keyPad` and `|name| + namePad` are the same on
      every row. */
  lemma PaddingAligns(prompt: string, e: Entry, w: Widths)
    requires Fits(e, w)
    ensures var row := RenderRow(prompt, e, w);
            && row.keyPad >= 2 && |e.key| + row.keyPad == w.key + 2
            && row.namePad >= 2 && |e.name| + row.namePad == w.name + 2
            && |e.exec| + |e.argstr| + |e.path| + row.gap == w.exec + w.args + w.path
  {
  }

  /** The drawn width of a row's breadcrumbs: every label and separator. */
  function CrumbsWidth(cs: seq<Crumb>): nat
  {
    if |cs| == 0 then 0 else |cs[0].text| + |cs[0].separator| + CrumbsWidth(cs[1..])
  }

  /** The width of the `" > label"` spelling of a breadcrumb list. */
  function LabelWidth(breadcrumbs: seq<(string, string)>): nat
  {
    if |breadcrumbs| == 0 then 0 else 3 + |breadcrumbs[0].0| + LabelWidth(breadcrumbs[1..])
  }

  /** Drawn breadcrumbs are their `" > label"` spelling without the
      leading `" > "`: one separator fewer than labels. */
  lemma {:induction false} CrumbsWidthLabels(prompt: string, relevant: bool, breadcrumbs: seq<(string, string)>)
    requires |breadcrumbs| > 0
    ensures CrumbsWidth(RenderCrumbs(prompt, relevant, breadcrumbs)) + 3 == LabelWidth(breadcrumbs)
    decreases |breadcrumbs|
  {
    var cs := RenderCrumbs(prompt, relevant, breadcrumbs);
    var rest := breadcrumbs[1..];
    if |breadcrumbs| > 1 {
      assert cs[1..] == RenderCrumbs(prompt, relevant, rest);
      CrumbsWidthLabels(prompt, relevant, rest);
    } else {
      assert cs[1..] == [];
      assert rest == [];
    }
  }

  /** A descended name is the `" > label"` spelling of its breadcrumbs. */
  lemma {:induction false} LabelsWidth(key0: string, p: seq<Child>)
    ensures |Labels(p)| == LabelWidth(Crumbs(key0, p))
    decreases p
  {
    if |p| > 0 {
      CrumbsCons(key0, p);
      var k1 := key0 + p[0].entry.key;
      assert Crumbs(key0, p)[1..] == Crumbs(k1, p[1..]);
      LabelsWidth(k1, p[1..]);
    }
  }

  /** Rendering what `get_entries` accepted, with the widths it computed:
      every row's key column and breadcrumb column end at the same place,
      whatever the entry. */
  lemma BuiltColumnsAlign(config: ConfigFile, prompt: string, i: nat)
    requires EntriesOf(config).Ok? && i < |EntriesOf(config).value|
    ensures var es := EntriesOf(config).value;
            var w := Widen(Widths(0, 0, 0, 0, 0, 0), Root(config.global), config.entries);
            var row := RenderRow(prompt, es[i], w);
            && |row.typed| + |row.untyped| + row.keyPad == w.key + 2
            && CrumbsWidth(row.crumbs) + row.namePad == w.name - 1
  {
    var es := EntriesOf(config).value;
    var w := Widen(Widths(0, 0, 0, 0, 0, 0), Root(config.global), config.entries);
    var row := RenderRow(prompt, es[i], w);
    WidenBounds(Widths(0, 0, 0, 0, 0, 0), Root(config.global), config.entries);
    assert es[i] in es;
    PaddingAligns(prompt, es[i], w);
    EntryShape(config, i);
    var p := Paths(config.entries)[i];
    LabelsWidth("", p);
    EntriesChained(config);
    CrumbsWidthLabels(prompt, row.relevant, es[i].breadcrumbs);
    assert |row.typed + row.untyped| == |es[i].key|;
  }

  /** Rendering what `get_entries` accepted, with the widths it computed:
      every row is padded without underflow and aligned, and its
      highlighted breadcrumbs form a leading run. */
  lemma RenderBuilt(config: ConfigFile, prompt: string)
    requires EntriesOf(config).Ok?
    ensures var es := EntriesOf(config).value;
            var w := Widen(Widths(0, 0, 0, 0, 0, 0), Root(config.global), config.entries);
            var rows := Render(prompt, es, w);
            forall i :: 0 <= i < |rows| ==>
              rows[i].keyPad >= 2 && rows[i].namePad >= 2 &&
              (forall j, k :: 0 <= j <= k < |rows[i].crumbs| && rows[i].crumbs[k].onPath ==> rows[i].crumbs[j].onPath)
  {
    var es := EntriesOf(config).value;
    var w := Widen(Widths(0, 0, 0, 0, 0, 0), Root(config.global), config.entries);
    WidenBounds(Widths(0, 0, 0, 0, 0, 0), Root(config.global), config.entries);
    EntriesChained(config);
    forall i | 0 <= i < |es|
      ensures RenderRow(prompt, es[i], w).keyPad >= 2 && RenderRow(prompt, es[i], w).namePad >= 2
      ensures var cs := RenderRow(prompt, es[i], w).crumbs;
              forall j, k :: 0 <= j <= k < |cs| && cs[k].onPath ==> cs[j].onPath
    {
      assert es[i] in es;
      PaddingAligns(prompt, es[i], w);
      HighlightedCrumbsLead(prompt, prompt <= es[i].key, es[i].breadcrumbs);
    }
  }
}
