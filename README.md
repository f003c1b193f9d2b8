# qop launcher core in Dafny

qop is a keystroke launcher. A configuration tree of named nodes gives each
node a short key fragment, and optionally an `exec`, a `path`, `args` and
`env`. Leaves are the shortcuts. `get_entries` flattens the tree into a list
of entries:

- the key and the label are concatenated from the root down;
- `exec` is inherited unless a node overrides it;
- `path` is inherited, replaced, or extended by a value starting with `+`;
- `args` and `env` accumulate along the way.

The walk also measures the column widths (`Lengths`). It rejects a leaf
without an exec, and it rejects a list in which one entry's key is a prefix
of another's.

At run time the launcher loops. When some entry's key equals the typed
prompt, it launches that entry. Otherwise it reads one key event:

- a character is kept only if some key still starts with the new prompt;
- Backspace drops the last character;
- Esc and Ctrl+C stop the loop.

Each frame draws every entry as a row. The row highlights the typed part of
the key and the breadcrumbs already covered, and pads every column to the
measured widths.

The model has these modules:

- `Strings`: `split`/`join`, `trim_end_matches` and `trim_start_matches`, as used by the source.
- `Entries`: the data model and `to_env`, with the path rule and the walk stated as functions (`FlattenChild`/`Flatten`, `WidenChild`/`Widen`). It also holds the imperative `BuildChild`/`BuildEntries`/`GetEntries`, which update a `Lengths` object in place and are proved against those functions, and the prefix-conflict check.
- `Flattening`: a second definition of the flattened list, one entry per root-to-leaf path in pre-order. It proves that the walk matches it, and what each field of an accepted entry is.
- `Ui`: the `#rrggbb` colour parser, `input_ui` as a transition function and as a method, and `render_ui` as rows of flags and paddings.
- `Navigation`: the loop of `main` as a method proved against a state machine over a finite list of events, with the first exact-match lookup.
- `Scenarios`: small configurations worked through `get_entries`.

Panics in the source become `Err` values: `MissingExec(name)` and `PrefixConflict(key)` from `get_entries`, and `WrongLength`/`MissingHash`/`NotANumber` from the colour parser.

Behaviour of the code worth knowing, which the model keeps:

- The loop checks for an exact match before it reads each event. With keys `ab`, `ac` and `ba`, the events `a`, `c`, Backspace, `b` launch `ac`, and the last two events are never read (`Navigation.ExactMatchFirst`).
- The prefix-conflict check runs over every ordered pair of entries, so it is symmetric (`Entries.FindConflict`). It tells entries apart by their accumulated label (` > ` before every node's name), not by position. Two leaves whose ` > `-joined labels are equal are never reported against each other, even with prefix-related keys. For example, nodes `a >` then `b`, and nodes `a` then `> b`, both give the label ` > a > > b`.
- Esc and Ctrl+C end the process with status 1 (src/main.rs:98-102). The model has them end the loop as `Cancelled`.
- A key may be empty. A lone leaf with an empty key is accepted, and it is launched before any event is read.

## Model

| member | source | states |
|---|---|---|
| Strings.Split | src/entries.rs:65-70 | `split('=')` yields at least one part, no part holds the separator, and joining the parts with it gives the string back |
| Strings.SplitAtFirst | src/entries.rs:65-70 | splitting peels off exactly the text before the first separator, and the rest splits on its own |
| Strings.SplitWithout | src/entries.rs:65-66 | a string without the separator splits into itself alone |
| Strings.TrimEnd | src/entries.rs:124 | `trim_end_matches('/')` gives a prefix of the input and removes only `/`; the result does not end with `/` |
| Strings.TrimStart | src/entries.rs:125 | `trim_start_matches(['/', '+'])` gives a suffix of the input and removes only `/` and `+`; the result does not start with either |
| Entries.ToEnvVarSplitsAtFirst | src/entries.rs:62-74 | a `NAME=VALUE` string is split at its first `=`, and the value keeps any later `=`; without `=` the value is empty |
| Entries.ToEnvRoundTrip | src/entries.rs:62-74 | `to_env` keeps count and order, and name + `=` + value gives back every string that holds an `=` |
| Entries.ResolvePath | src/entries.rs:118-131 | an absent `path` inherits; a value not starting with `+` replaces; a `+` value is the trimmed inherited path, exactly one `/`, then the value without its leading `/` and `+` |
| Entries.FlattenPrefixErr | src/entries.rs:107-158 | once a prefix of the children fails, the whole walk fails with the same error |
| Entries.WidenChildBounds | src/entries.rs:109-155 | walking one child only widens the columns, and every entry it yields fits the widths after it |
| Entries.WidenBounds | src/entries.rs:102-159 | the walk only widens the columns, and every entry it yields fits the final widths |
| Entries.Lengths.constructor | src/entries.rs:52-60 | `Lengths::default()` starts every width at zero |
| Entries.BuildChild | src/entries.rs:109-156 | the closure for one child yields what `FlattenChild` specifies, and on success leaves `lengths` at `WidenChild` of the old widths |
| Entries.BuildEntries | src/entries.rs:102-159 | the loop over the children yields `Flatten` (the first error stops it), and on success leaves `lengths` at `Widen` of the old widths |
| Entries.FindConflict | src/entries.rs:91-95 | finds nothing exactly when no entry's key is a prefix of a differently named entry's key; otherwise returns the first entry that has such a conflict |
| Entries.EntriesOf | src/entries.rs:76-100 | accepts exactly when the walk succeeds and its list is prefix-free, then returns that list; a conflict names the key of a conflicting entry; a walk error is passed through |
| Entries.GetEntries | src/entries.rs:76-100 | a fresh `Lengths` and the result of `EntriesOf`; on success the widths are those of the walk from zero, and every entry fits them |
| Flattening.ChildPathsAreLeafPaths | src/entries.rs:138-155 | every listed path under a child goes down child links and ends at a leaf |
| Flattening.PathsAreLeafPaths | src/entries.rs:138-155 | every listed path of a child list is a root-to-leaf path of that list |
| Flattening.LeafPathsOfChildListed | src/entries.rs:138-155 | every root-to-leaf path starting at a child is listed for it |
| Flattening.LeafPathsListed | src/entries.rs:138-155 | every root-to-leaf path of a child list is listed, so no leaf is skipped |
| Flattening.Emit | src/entries.rs:138-152 | a list of resolved leaves is accepted exactly when every exec is non-empty, and is then finished one by one; otherwise MissingExec names the first leaf with an empty exec |
| Flattening.EmitAppend | src/entries.rs:157-158 | emitting a concatenation is emitting each part in order, the first error winning |
| Flattening.FlattenChildMatchesLeaves | src/entries.rs:109-156 | one child's walk is the emission of its leaf paths, each descended from the accumulator |
| Flattening.FlattenMatchesLeaves | src/entries.rs:102-159 | the recursive walk equals the emission of the tree's root-to-leaf paths in pre-order |
| Flattening.AlongFields | src/entries.rs:110-115 | along a path, the key is the inherited key followed by every node's fragment in order, and the label likewise with ` > label` per node |
| Flattening.AlongArgs | src/entries.rs:133 | along a path, `args` is the inherited list followed by every node's own args in order |
| Flattening.AlongEnv | src/entries.rs:134-136 | along a path, `env` is the inherited list followed by every node's own env, split by `to_env`, in order |
| Flattening.AlongCrumbs | src/entries.rs:113-114 | along a path, one breadcrumb is pushed per node: its label and the key so far |
| Flattening.AlongExec | src/entries.rs:116 | the exec is that of the deepest node on the path that sets one, else the inherited exec |
| Flattening.AlongPath | src/entries.rs:118-131 | the path is inherited when no node sets one, and is the last plain (non-`+`) value when no node below it sets a path |
| Flattening.CrumbsChain | src/entries.rs:113-114 | the cumulative keys of the breadcrumbs form a prefix chain ending at the full key |
| Flattening.LeafEntries | src/entries.rs:102-159 | a successful walk yields one entry per root-to-leaf path, each resolved along its path and finished, with a non-empty exec |
| Flattening.EntryShape | src/entries.rs:76-159 | each accepted entry: its leaf path, key, label, breadcrumb chain ending at the key, accumulated args and env, `argstr` joined by spaces, `envstr` the names joined by commas, and a non-empty exec |
| Flattening.EntriesChained | src/entries.rs:113-114 | every accepted entry has a non-empty breadcrumb chain ending at its key |
| Ui.ParseByte | src/ui.rs:32-34 | `u8::from_str_radix(_, 16)` on a pair succeeds exactly on two hex digits, or on `+` and one hex digit; the value is the two-digit hexadecimal number, or the single digit after `+` |
| Ui.ParseColor | src/ui.rs:23-37 | the wrong length, a missing `#` and a bad pair are refused; otherwise the three components are the pairs' values, and parsing succeeds exactly when all three pairs parse |
| Ui.ParseByteIgnoresCase | src/ui.rs:32-34 | a pair parses to the same byte, or fails alike, whatever the case of its hex letters |
| Ui.ParseColorIgnoresCase | src/ui.rs:23-37 | upper- and lower-case spellings of a colour give the same colour or the same refusal |
| Ui.ParseFormatRoundTrip | src/ui.rs:23-37 | parsing the `#rrggbb` spelling of any colour gives the colour back |
| Ui.DefaultStyleParses | src/ui.rs:54-65 | the six default colours parse to the intended components |
| Ui.SignedPairs | src/ui.rs:32-34 | `#+f+f+f` is accepted as (15, 15, 15); `-` digits, a non-hex digit, the wrong length and a missing `#` are refused |
| Ui.Next | src/ui.rs:184-217 | Esc and Ctrl+C stop with the prompt unchanged; a character is appended exactly when some key starts with the result; Backspace drops the last character; other events change nothing |
| Ui.EmptyPromptLive | src/main.rs:57 | the initial empty prompt is a prefix of some key whenever there is an entry |
| Ui.NextKeepsLive | src/ui.rs:192-211 | no event turns a prompt that some key starts with into one that no key starts with |
| Ui.InputUi | src/ui.rs:184-217 | the prompt it returns, which the source writes back through `&mut`, and its stop flag are the transition `Next` describes, and a live prompt stays live |
| Ui.RenderCrumbs | src/ui.rs:103-131 | one crumb per breadcrumb with its label; highlighted exactly when the row is relevant and the prompt covers its cumulative key; ` > ` after all but the last |
| Ui.RenderRow | src/ui.rs:74-173 | a row is relevant exactly when its key starts with the prompt; the highlighted and plain parts make up the key, the highlighted part being the prompt; the breadcrumbs are rendered with the row's relevance; the background is emphasised exactly when relevant with a non-empty prompt |
| Ui.Render | src/ui.rs:74-175 | one row per entry in the entries' order: filtering marks rows and never drops them |
| Ui.HighlightedCrumbsLead | src/ui.rs:113 | on a breadcrumb chain the highlighted breadcrumbs form a leading run |
| Ui.PaddingAligns | src/ui.rs:101-155 | for an entry that fits the widths, key and label padding are at least two spaces, and the key length plus `keyPad` and the name length plus `namePad` are the same on every row |
| Ui.CrumbsWidthLabels | src/ui.rs:103-131 | the drawn breadcrumbs (labels and separators) are three characters narrower than their ` > label` spelling |
| Ui.LabelsWidth | src/entries.rs:111-114 | a descended name is exactly as wide as the ` > label` spelling of its breadcrumbs |
| Ui.BuiltColumnsAlign | src/ui.rs:101-134 | for accepted entries with the measured widths, the drawn key plus its padding and the drawn breadcrumbs plus theirs end at the same place on every row |
| Ui.RenderBuilt | src/ui.rs:67-182 | rendering an accepted list with its measured widths never underflows a padding, and every row's highlighted breadcrumbs lead |
| Navigation.FindExact | src/main.rs:85 | finds nothing exactly when no key equals the prompt; otherwise the first entry whose key equals it |
| Navigation.Navigate | src/main.rs:79-103 | the loop of `main` ends as the state machine `Run` does from the empty prompt |
| Navigation.RunStaysLive | src/main.rs:79-103 | from a live prompt the loop launches only one of the entries, and while it waits its prompt stays live |
| Navigation.EscCancels | src/ui.rs:200-202 | Esc cancels from any prompt without an exact match |
| Navigation.ExactMatchIsOnlyCandidate | src/main.rs:85 | in a prefix-free list, every entry whose key starts with an exactly matched prompt carries the matched entry's label |
| Navigation.TypedKeyLaunches | src/main.rs:79-103 | with keys `ab`, `ac`, `ba`, typing `a`, `b` launches `ab` |
| Navigation.DeadKeyIgnored | src/ui.rs:205-211 | with keys `ab`, `ac`, `ba`, typing `x` leaves the prompt empty and the loop waiting |
| Navigation.ExactMatchFirst | src/main.rs:85 | with keys `ab`, `ac`, `ba`, typing `a`, `c` launches `ac` before Backspace and `b` are read |
| Scenarios.NoExecRefused | src/entries.rs:140-142 | a leaf that has no exec and inherits none is refused, naming the leaf |
| Scenarios.PrefixRefused | src/entries.rs:91-97 | keys `ab` and `abc` are refused on `ab` |
| Scenarios.SiblingsAccepted | src/entries.rs:76-100 | keys `ab` and `ac` are accepted, in declaration order, with the inherited exec |

## Left out

- Reading the configuration file, TOML and serde decoding, and the command line: the model starts from a `ConfigFile` value. The children of a node are a sequence of named `Child` values, and the proofs do not rely on names being unique per level.
- The colour fields of the global section and their overrides of the default style (src/main.rs:58-76): each override applies `ParseColor`, which is modelled. The conversion to the drawing library's colour type is left out.
- Terminal drawing: `Span`, `Style` and `List` are replaced by the `Row` and `Crumb` records, which carry the texts, paddings and the flags that pick each colour.
- Launching: `shellexpand`, `process::Command`, process groups and exit statuses are left out; the loop ends in `Launch(entry)`.
- Terminal and event-source failures, including I/O errors from `event::read` and `render_ui`, are not modelled. Key events are given as a finite list, and `Waiting` is the state when the list runs out.
- Panic messages and `Display for Entry` are left out; each panic is an error value.
- Bytes: every character stands for one byte, so `len()` and slicing are modelled for ASCII text. Two behaviours on multi-byte characters are not modelled:
  - Backspace after a multi-byte last character clears the whole prompt. There `prompt.get(..)` finds no character boundary, and `unwrap_or_default()` gives the empty string (src/ui.rs:193-196).
  - The colour parser's slices `&self[..1]`, `&self[1..3]`, `&self[3..5]` and `&self[5..]` panic when a cut falls inside a multi-byte character (src/ui.rs:26-30); `"#123é4"` is seven bytes and passes the first two, but byte 5 falls inside `é`. The render's `split_at` always cuts at a boundary, because it follows a `starts_with` check.
- Entries.BuildEntries: says nothing about `lengths` after an error, because the source panics there and the widths are never read.
- Entries.BuildChild: says nothing about `lengths` after an error, for the same reason.
- Ui.RenderRow: `keyPad` and `namePad` are unbounded integers. Where a key or name is longer than its width, the source's `usize` subtraction `lengths.key - entry.key.len()` (src/ui.rs:101, and `lengths.name` at src/ui.rs:134) underflows before the `+ 2`. The model gives `w.key - |key| + 2`, which is 1 for one character over, 0 for two, and negative only from three characters over. `Ui.PaddingAligns` and `Ui.RenderBuilt` show that no accepted entry is longer than its width.
- Widths are unbounded naturals; the source's `usize` cannot overflow at any realistic size.
