# A model of ace's stylesheet rewrite and screen helper

ace ships a build step that removes Tailwind's legacy polyfills from the stylesheets it builds
(`apps/web/css-polyfills.ts`), and a macOS helper process that captures, encodes and streams
screens and drives other apps' windows (`native/screen-helper`). This project models the parts of
both whose correctness is not visible in any one function, and proves what each is for.
`dafny verify dfyconfig.toml` checks everything.

## How it is laid out

Code that loops over local state or updates an object is a method or a class; its contract ties it
to a function on values, and the theorems are about that function. Concurrent code is a step
relation, one step per access to shared state, and the theorems are about every state of every run.

| files | subject |
|---|---|
| `Basics` | optional values, bytes, big-endian numbers, ASCII case, filtering |
| `CssLex`, `CssParse` | lexemes (escapes, strings, comments), the parser, the printer, their round trip |
| `CssSplit`, `CssStrip` | selector and declaration lists, the rewrite |
| `CssCascade` | what a stylesheet means to an element |
| `CssReplace` | one replacement, and the exact condition under which it keeps what wins |
| `CssMeaning` | the rewrite keeps what a stylesheet means |
| `CssWhole` | the rewrite from text to text |
| `CssRegular` | stylesheets of the shape the rewrite is for, on which all of this holds |
| `CssLimits` | one stylesheet the rewrite is for, and one for each condition on which it goes wrong |
| `CssLoops` | the loops of the source, equal to the functions above |
| `CssPositions` | the scanner, the parser and the splitter again, by positions in the text |
| `CssLeftovers` | what the rewrite leaves: nothing that it is for, and everything else |
| `CssSample` | from text to text, a rule in a layer and its block |
| `AnnexB` | length prefixes to start codes in place, and back |
| `VideoPipeline` | the newest-picture-waits protocol between a queue and an encoder's thread |
| `Clipboard` | pasting through the person's clipboard, with crashes and several helpers |
| `Scheduler` | per-lane and coordinated command order |
| `FrameWriter` | partial writes, newest packet per session, turns |
| `Outline`, `Marks` | the ancestor stack over a depth-first outline: search and tag clipping |
| `Framing` | lines and packets from chunks of bytes |
| `Elements` | ids for recycled views |
| `Typing` | chunked typing that learns what the app takes |
| `Visible` | the binary search for the rows that show |
| `Mouse` | click and drag plans, and the loop that posts them |
| `Noise` | which notifications are noise |

### What the cascade theorems say

A `Viewer` is one element in one browser: which at-rule conditions hold, which selectors match and
how specific they are, and how layers rank. The winner is by layer, then specificity, then order
(section 6 of CSS Cascading and Inheritance Level 5).

**One replacement, exactly.** `ReplaceExact` and `PairExact` are if-and-only-ifs over all viewers,
layers and properties, for every replacement the code makes: everything that wins is kept exactly when
every selector on its own is given the same declarations before and after (`SelectorWise`, a comparison
of two finite lists). They assume nothing about names, repeated selectors, at-rules or lists that are
read differently once written. `KeptExact` turns this into a condition on the lists themselves, where
the lists that are written are read as they were (`Rereads`) and the rewrite reads the names of the
declarations as a browser does:

- `SquashExact`: to browsers for which white space in these selectors does not count, everything is
  kept if and only if the rule has every selector of the block, or no declaration tells the
  difference. By `CountFinds` the rule has every selector of the block if and only if no selector that
  moves stands twice in the rule.
- `TextExact`: to all browsers, the same with selectors compared as they are written.

**The whole rewrite.** `StripKeeps` holds for every node tree at any nesting. It asks something only
where the rewrite changes something (`Fair`): where a block replaces part of a rule, that its condition
holds and that the exact condition above does; where a reset is dropped, that the conditions inside it
do not hold. Everything else in the stylesheet may be anything.

**Nothing is left over.** Keeping the meaning is no use if nothing is rewritten. `NothingLeftOver` holds
for every node tree: at no depth of the result is there a reset layer, or a `color-mix()` block right
after a rule that has a fallback for each of its declarations and as many selectors of the block as the
block has. Both are written out on the nodes and their texts (`IsReset`, `CanTake`), not by what the code
asks. `LeftAlone`: a tree is left as it is if and only if there is neither anywhere in it, so that a
second rewrite changes nothing. `UtilityIsRewritten` is one such text in full.

**From text to text.** `WithoutPolyfillsKeeps` asks besides that no prelude lost an escaped blank to
trimming (`NoCuts`, which by `RoundTrip` is exactly when the parser's result can be printed), that each
rule a replacement writes has a prelude and a body that end where they are written to end, and that
inside a group what goes and what comes has balanced braces (`Prints`).

`RegularStylesheetsKeep` derives all of this from the shape Tailwind writes: flat declarations with a
colon and no upper-case custom property, no selector that begins with `@` (`Regulars`), matched
brackets and no brace in a selector, a declaration or, inside groups, a statement (`Plains`), and the
rule has every selector of the block where one replaces part of the other (`Covers`). By
`UnrepeatingCovers` the last holds where no rule of the parsed text names a selector twice, however
many blocks follow one another.

`CssLimits` has a stylesheet for each way to fall outside: a repeated selector, white space that
counts, an upper-case custom property, a selector that begins with `@`, an escaped blank before a
comma, and one at the end of a prelude. Properties are independent longhands of equal importance.

### What the clipboard theorems take for granted

One helper is alive at a time, every save reaches the disk before the agent's content reaches the
board, tokens and process ids are not used twice, and writing the board is one step. The person may
copy at any time. `ClipboardComesBack` is exact: what the person last copied is there if and only if no
write since then covered a board that its own save does not hold, which the helper could find out just
before it writes. `HurriedCopyIsLost` is the run in which this happens, and `UnhurriedCopiesComeBack`
says that it cannot without a copy between snapshot and write. A board whose every entry can be read is
the very same board afterwards. `RestoreOnlyOwnContent` and `PersonKeepsTheBoard` need none of these
except that looking at the token and restoring are one step.

### Where the code and its description differ

- `css-polyfills.ts` says anything not of exactly the right shape is left alone. A repeated selector, a
  descendant combinator in place of a compound one, and a custom property that differs in case all
  pass its comparisons (lines 143, 145 and 169).
- `parse` trims a prelude that ends in an escaped blank (line 92), so what it prints is then another
  stylesheet. `RoundTrip` says this is the only case. Splitting a selector list does the same to each
  selector (line 137), and joining what is left then escapes the comma.
- `FrameWriter` accepts an empty packet, of which the socket takes nothing: nothing is ever written
  after it.
- The transcoder's reader keeps a malformed packet at the front of its buffer and never gets past it.
- A drag is described as a nudge and then a glide. On a way shorter than 32 points the nudge passes
  the first step of the glide and the pointer turns back.
- An app that takes one chunk whole and then cuts a later one loses characters: typing checks only
  the first.
- A crash is meant to leave a save that the next helper restores. Two helpers that could not take the
  lock leave two, of which one holds the other's content, and the order in which the directory lists
  them decides whether the person's clipboard comes back.

## Model

| member | source | states |
|---|---|---|
| `CssLex.ShowLex` | apps/web/css-polyfills.ts:27-41 | The lexemes of any text, written one after the other, are the text: the scanner skips nothing |
| `CssLex.LexCat` | apps/web/css-polyfills.ts:27-41 | Two texts that meet between lexemes lex to the lexemes of both; an open string, comment or escape, or a slash before a star, is what prevents it |
| `CssLex.LexedSlice` | apps/web/css-polyfills.ts:27-41 | Any run of lexemes of a text, written on its own, lexes to itself, and is closed when it is not the last |
| `CssParse.PreludeEndIs` | apps/web/css-polyfills.ts:71-84 | A prelude ends at `k` if and only if `k` is a `{`, `;` or `}` and everything before is free of those outside matched parentheses |
| `CssParse.BodyEndIs` | apps/web/css-polyfills.ts:43-57 | A block closes at `k` if and only if `k` is a `}` and everything before balances |
| `CssParse.ReadPrefix` | apps/web/css-polyfills.ts:59-102 | A node whose end is seen is read the same whatever follows |
| `CssParse.ParseSound` | apps/web/css-polyfills.ts:59-114 | Every node the parser builds can be printed and read back in place, at every nesting, and printing loses white space only, unless trimming cut an escape |
| `CssParse.SoundParses` | apps/web/css-polyfills.ts:59-114 | Printing any list of nodes that read back and parsing it gives the list |
| `CssParse.ParseShorter` | apps/web/css-polyfills.ts:59-114 | Parsing and printing never lengthens a text |
| `CssParse.RoundTrip` | apps/web/css-polyfills.ts:59-114 | For every stylesheet that parses, parsing what is printed gives the same nodes if and only if no prelude ends in a backslash whose blank was trimmed |
| `CssSplit.PartsOfJoin` | apps/web/css-polyfills.ts:116-138 | Joining parts that hold no bare separator and no open bracket, string or comment and splitting the result gives the parts back |
| `CssCascade.WinnerIsLastHighest` | apps/web/css-polyfills.ts:3-15 | The winning declaration is the last of those of highest layer and specificity, and there is one exactly when some declaration of the property applies |
| `CssCascade.RuleWinner` | apps/web/css-polyfills.ts:154-175 | Any rule claims a property at its most specific matching selector with its last declaration of it, names as a browser reads them |
| `CssCascade.OverrideGives` | apps/web/css-polyfills.ts:158-165 | After the overrides every property has the overriding value where there is one and its own where there is not |
| `CssReplace.HighestIs` | apps/web/css-polyfills.ts:166-173 | How specific a list of selectors is to an element: the maximum over those that match |
| `CssReplace.OnlySees` | apps/web/css-polyfills.ts:154-175 | What wins for an element that one selector matches is the last of the declarations the rules give that selector |
| `CssReplace.MixedSays` | apps/web/css-polyfills.ts:158-165 | The merged body gives every property what the block gives it, or else what the rule did |
| `CssReplace.ReplaceKeeps` | apps/web/css-polyfills.ts:147-175 | What replaces a rule and the block after it, split or not, wins for every element and property what the two won, if every selector keeps its own declarations |
| `CssReplace.ReplaceExact` | apps/web/css-polyfills.ts:147-175 | Every replacement keeps everything that wins, for all viewers, layers and properties, if and only if every selector on its own is given the same before and after |
| `CssReplace.KeptExact` | apps/web/css-polyfills.ts:147-175 | The same as a condition on the selectors and declarations of rule and block, for any notion of which texts are one selector |
| `CssReplace.SquashExact` | apps/web/css-polyfills.ts:145-175 | Where white space does not count: kept if and only if the rule has every selector of the block, or no declaration tells the difference |
| `CssReplace.TextExact` | apps/web/css-polyfills.ts:145-175 | To all browsers: the exact condition with selectors compared as they are written |
| `CssReplace.CountFinds` | apps/web/css-polyfills.ts:166-169 | When the counts agree, the rule has every selector of the block if and only if no selector that moves stands twice in it |
| `CssMeaning.PlaceKeeps` | apps/web/css-polyfills.ts:193-214 | One turn of the loop adds to what is won exactly what the node wins, whether it is replaced, dropped or kept |
| `CssMeaning.StripIntoKeeps` | apps/web/css-polyfills.ts:193-214 | From any output so far, the loop ends with what the output and the remaining nodes win together |
| `CssMeaning.StripKeeps` | apps/web/css-polyfills.ts:193-214 | For every tree, element and property the winning declaration, with its layer and specificity, is the same before and after the rewrite wherever its replacements and drops are fair |
| `CssMeaning.PairExact` | apps/web/css-polyfills.ts:147-214 | A stylesheet of a rule and its block means the same after the rewrite, to everyone with `color-mix()`, if and only if every selector on its own is given the same |
| `CssWhole.StripFits` | apps/web/css-polyfills.ts:193-219 | The rewritten tree can be printed and read back in place, and inside a group its text stays one block |
| `CssWhole.WithoutPolyfillsKeeps` | apps/web/css-polyfills.ts:217-219 | The written text parses to the rewritten tree, and every property of every element keeps the declaration it had under the original text |
| `CssRegular.InnerIsStyleRule` | apps/web/css-polyfills.ts:154-175 | A block whose selectors are all the rule's holds no at-rule, which the code never asks about |
| `CssRegular.RegularIsFair` | apps/web/css-polyfills.ts:193-214 | Whatever the rewrite replaces and drops in a regular stylesheet, at any nesting and in sequence, is fair |
| `CssRegular.PlainPrints` | apps/web/css-polyfills.ts:193-219 | Whatever the rewrite writes in a plain and regular stylesheet can be read again |
| `CssRegular.RegularStylesheetsKeep` | apps/web/css-polyfills.ts:217-219 | Text to text, a stylesheet of the shape Tailwind writes keeps its meaning |
| `CssRegular.UnrepeatingCovers` | apps/web/css-polyfills.ts:166-169 | Where no rule of the parsed text names a selector twice, every rule has the selectors of the block that replaces part of it, through any sequence of replacements |
| `CssRegular.UnrepeatingStylesheetsKeep` | apps/web/css-polyfills.ts:217-219 | Text to text, with a condition on the parsed text alone |
| `CssLoops.SkipStringOrComment` | apps/web/css-polyfills.ts:27-41 | The scan ends where the escape, string or comment does, or past the end when it is cut off |
| `CssLoops.ClosingBrace` | apps/web/css-polyfills.ts:43-57 | The loop finds the closing brace of the block, or none where the source throws |
| `CssLoops.PreludeScan` | apps/web/css-polyfills.ts:71-84 | The loop stops at the end of the prelude |
| `CssLoops.ParseCss` | apps/web/css-polyfills.ts:59-102 | The recursive loop over positions builds the nodes that the grammar over lexemes gives, and fails exactly where that does; the rows of `CssPositions` say what they are |
| `CssLoops.SplitTopLevel` | apps/web/css-polyfills.ts:116-138 | The loop gives the trimmed, non-empty runs of lexemes between separators outside brackets, which `PartsByPosition` says in characters |
| `CssLoops.ReplaceFallbacksOf` | apps/web/css-polyfills.ts:154-175 | The in-place overrides give what the rewrite's specification says, for every previous node and block |
| `CssLoops.StripNodes` | apps/web/css-polyfills.ts:193-214 | The loop with its splices computes the rewrite that `StripKeeps` and `NothingLeftOver` are about |
| `CssLoops.RemovePolyfills` | apps/web/css-polyfills.ts:217-219 | The exported function computes the rewrite that `WithoutPolyfillsKeeps` and `NothingLeftOver` are about, or fails where parsing does |
| `CssPositions.PreludeByPosition` | apps/web/css-polyfills.ts:71-84 | A prelude ends at the first `{`, `;` or `}` outside escapes, strings and comments with as many `(` as `)` before it, or at the end of the text; characters are counted one by one, without lexemes |
| `CssPositions.BodyByPosition` | apps/web/css-polyfills.ts:43-57 | A block closes at the first `}` outside escapes, strings and comments with as many `{` as `}` between, or nowhere |
| `CssPositions.PartsByPosition` | apps/web/css-polyfills.ts:116-138 | A separator splits if and only if it is outside escapes, strings and comments with as many `(` and `[` as `)` and `]` before it; the parts are, in order, the trimmed non-empty texts between those that split |
| `CssPositions.BlockByPosition` | apps/web/css-polyfills.ts:91-98 | A closed block parses to a group of what its body parses to where its prelude is `@` and media, supports, layer, container, scope, starting-style or document, in any case, and then the end or no word character; with any other prelude to a rule with its body as text |
| `CssPositions.OpenBlockByPosition` | apps/web/css-polyfills.ts:56-56 | A block that never closes leaves no answer |
| `CssPositions.StatementByPosition` | apps/web/css-polyfills.ts:85-90 | Without a block a node is the text up to the first semicolon or closing brace, or to the end |
| `CssPositions.CommentByPosition` | apps/web/css-polyfills.ts:65-70 | A comment is a text of its own, up to the first mark that closes it or the end |
| `CssPositions.TrimIs` | apps/web/css-polyfills.ts:92-92 | Trimming takes white space off both ends and leaves none there |
| `CssLeftovers.SquashIs` | apps/web/css-polyfills.ts:145-145 | Squashing keeps, in order, exactly the characters that are no white space |
| `CssLeftovers.PropertyIs` | apps/web/css-polyfills.ts:142-143 | Two declarations are of one property if and only if their trimmed texts before the first colon agree but for the case of letters; without a colon the last character does not count |
| `CssLeftovers.OverrideIs` | apps/web/css-polyfills.ts:158-165 | Every declaration finds a fallback in the list as it changes if and only if each has one in the list as it was |
| `CssLeftovers.ReplacesIs` | apps/web/css-polyfills.ts:147-175 | A block replaces part of a rule if and only if the rule is no at-rule, the prelude without white space is the text of line 24, the block holds one rule, each of its declarations has a fallback, and as many of the rule's selectors are among the block's as the block has |
| `CssLeftovers.ResetIs` | apps/web/css-polyfills.ts:178-191 | A group is dropped as a reset if and only if it has that shape, written out |
| `CssLeftovers.NothingLeftOver` | apps/web/css-polyfills.ts:193-214 | For every tree, at no depth of the result is there a reset, or a block right after a rule that it could replace part of |
| `CssLeftovers.LeftAlone` | apps/web/css-polyfills.ts:193-214 | A tree stays as it is if and only if there is neither at any depth; a second rewrite changes nothing |
| `CssSample.BlockInAGroup` | apps/web/css-polyfills.ts:193-219 | From text to text, for every group, selector and pair of declarations of one property: the rule and its block, however the condition is spaced, become the rule with the declaration of the block |
| `CssSample.UtilityIsRewritten` | apps/web/css-polyfills.ts:193-219 | One such text in full: a utility in its layer before `@supports (color: color-mix(in lab, red, red))` |
| `CssLimits.MergedSelectorsAreSplit` | apps/web/css-polyfills.ts:147-175 | A rule for `a,b` before a block for `a` becomes two rules, and everything that wins is kept for every element and browser with `color-mix()` |
| `CssLimits.RepeatedSelectorLosesAnother` | apps/web/css-polyfills.ts:166-170 | In a stylesheet with a rule for `a,a` before a block for `a,b`, `b` has the replacement before the rewrite and nothing after |
| `CssLimits.BlankSelectorTakenForAnother` | apps/web/css-polyfills.ts:145-168 | In a stylesheet with a rule for `a b` before a block for `ab`, `a b` changes its value |
| `CssLimits.UpperCaseCustomPropertyIsLost` | apps/web/css-polyfills.ts:142-163 | In a stylesheet with `--x` in a rule and `--X` in its block, `--x` has a value before the rewrite and none after |
| `CssLimits.AtSelectorIsLost` | apps/web/css-polyfills.ts:166-174 | In a stylesheet with a rule for `a,@b` before a block for `a`, what is left behind becomes an at-rule |
| `CssLimits.EscapedBlankJoinsSelectors` | apps/web/css-polyfills.ts:137-172 | In a stylesheet with a rule for `a\ ,b,c` before a block for `c`, the two selectors left behind become one, and `b` loses its value |
| `CssLimits.EscapedBlankIsLost` | apps/web/css-polyfills.ts:92-92 | A prelude that is an escaped blank does not survive printing |
| `AnnexB.StartCodes` | native/screen-helper/VideoEncoder.swift:164-178 | True if and only if the bytes from `start` tile into non-empty length-prefixed units; earlier bytes and units' bytes stay, and each length up to the first bad one becomes a start code |
| `AnnexB.TilesAreUnits` | native/screen-helper/VideoEncoder.swift:164-178 | Bytes that tile are their units with lengths, and the rewrite is those units with start codes |
| `AnnexB.UnitsTile` | native/screen-helper/VideoEncoder.swift:164-178 | Units written after their lengths tile into exactly those units |
| `AnnexB.CutUnits` | native/screen-helper/Transcoder.swift:117-133 | The scan with its two start-code lengths gives the non-empty pieces between start codes |
| `AnnexB.CutInverse` | native/screen-helper/Transcoder.swift:117-133 | Cutting a stream of non-empty units gives the units back if and only if none holds 00 00 01 |
| `AnnexB.PayloadUnits` | native/screen-helper/VideoEncoder.swift:155-161 | The receiver's units are the parameter sets and the sample's own if and only if none of them emulates a start code |
| `AnnexB.BuildSample` | native/screen-helper/Transcoder.swift:140-146 | The sample's units are, in order, exactly those whose first byte modulo 32 is none of 7, 8 and 9, each after its length in four bytes, the highest first |
| `AnnexB.UnitsSplit` | native/screen-helper/Transcoder.swift:117-133 | A stream after any bytes is cut as it would be alone |
| `AnnexB.PiecesClean` | native/screen-helper/Transcoder.swift:117-133 | Nothing the scanner cuts from any bytes holds 00 00 01 |
| `AnnexB.SampleSurvives` | native/screen-helper/Transcoder.swift:135-147 | From encoder to decoder, for any parameter sets, the sample comes back byte for byte if and only if none of its own units holds 00 00 01 or has a first byte that is 7, 8 or 9 modulo 32, and every unit cut from the parameter sets has one |
| `AnnexB.ParameterSetsStay` | native/screen-helper/Transcoder.swift:137-142 | Parameter sets of type 7 and 8 without 00 00 01 are cut as they are, and none goes into the sample |
| `AnnexB.EmulationSplits` | native/screen-helper/Transcoder.swift:117-133 | Any two units joined by 00 00 01 into one arrive as two |
| `VideoPipeline.CoreKeeps` | native/screen-helper/VideoEncoder.swift:69-121 | Each access to the slot, the flags and the callback keeps: at most one sample out, and a waiting picture is on its way |
| `VideoPipeline.TranscodeRunKeeps` | native/screen-helper/Transcoder.swift:86-115 | The invariants hold in every state of every interleaving of the transcoder |
| `VideoPipeline.FrameFileRunKeeps` | native/screen-helper/FrameFileEncoder.swift:21-56 | The invariants hold in every state of every interleaving of the frame-file encoder |
| `VideoPipeline.LastPictureIsNeverLost` | native/screen-helper/Transcoder.swift:62-93 | In every run a waiting picture is the last one and the encoder will answer, and at rest the last picture was submitted or refused |
| `VideoPipeline.LastPictureGoesInAgain` | native/screen-helper/Transcoder.swift:101-107 | In every run after a new size or a keyframe request, something is submitted or refused before all is at rest, and the last that was is the last picture |
| `VideoPipeline.NewestFrameIsNeverLost` | native/screen-helper/FrameFileEncoder.swift:34-56 | In every run of the frame-file encoder the newest frame waits until it is submitted or refused, and at rest it has been |
| `VideoPipeline.KeyframeIsNeverStranded` | native/screen-helper/FrameFileEncoder.swift:34-55 | In every run of either encoder an open keyframe request keeps its flag and a waiting picture until a submission carries the flag or something is refused; none is open at rest |
| `VideoPipeline.TriedIsARun` | native/screen-helper/Pipeline.swift:10-17 | One uninterrupted call of `completed` is a run of the micro-steps, so the class below is an instance of the machine |
| `VideoPipeline.Transcoder.Submit` | native/screen-helper/Pipeline.swift:11-17 | The slot is emptied on submission or refusal and kept while busy, and the run invariants hold after |
| `VideoPipeline.Transcoder.Picture` | native/screen-helper/Transcoder.swift:88-93 | The new picture becomes the last one, replaces what waited and is tried |
| `VideoPipeline.Transcoder.Keyframe` | native/screen-helper/Transcoder.swift:105-107 | The flag is set, and the last picture, if there is one, goes in again to carry it |
| `VideoPipeline.Transcoder.Completed` | native/screen-helper/Transcoder.swift:85-86 | A queued completion tries the waiting picture |
| `VideoPipeline.Transcoder.Answered` | native/screen-helper/VideoEncoder.swift:69-81 | The callback gives the sample back and queues a completion, and asks for a keyframe only on an error |
| `Clipboard.RestoreOnlyOwnContent` | native/screen-helper/ComputerClipboard.swift:35-129 | With any number of helpers, a step other than an agent's write changes the board only where it carries a save's own token, and then to that save |
| `Clipboard.PersonKeepsTheBoard` | native/screen-helper/ComputerClipboard.swift:104-129 | Content without a token stays on the board through any pastes under way, crashes, restarts and recoveries until someone writes again |
| `Clipboard.SoloKeeps` | native/screen-helper/ComputerPaste.swift:43-68 | Every step of a lone helper, a crash, a signal, a restart or a copy at any time keeps: the board, or the save under its token, is the person's readable content exactly when that was not lost |
| `Clipboard.SoloRunKeeps` | native/screen-helper/ComputerPaste.swift:43-68 | The same in every state of every run |
| `Clipboard.ClipboardComesBack` | native/screen-helper/ComputerPaste.swift:38-68 | Once recovery has run and no paste is pending, the board has no token, and it holds the readable part of what the person last put there if and only if no write since covered a board its save does not hold; what could all be read is then the very same board |
| `Clipboard.UnhurriedCopiesComeBack` | native/screen-helper/ComputerPaste.swift:47-64 | Without a copy between snapshot and write, everything comes back in every run |
| `Clipboard.NothingIsLostByCrashing` | native/screen-helper/ComputerClipboard.swift:113-129 | In every state, what the board lacks of the person's content is saved under the token on the board, unless such a write lost it |
| `Clipboard.HurriedCopyIsLost` | native/screen-helper/ComputerPaste.swift:47-64 | For any two contents that differ there is a run of one helper, up to the point where nothing is pending, in which a copy between snapshot and write is lost |
| `Clipboard.ReadableToken` | native/screen-helper/ComputerClipboard.swift:56-66 | Dropping unreadable data keeps the board's token, and doing it twice changes nothing |
| `Clipboard.ReadableIs` | native/screen-helper/ComputerClipboard.swift:56-66 | A snapshot keeps the number of items and of each, in order, exactly the entries whose data is there; where all is there it is the board |
| `Clipboard.AgentToken` | native/screen-helper/ComputerClipboard.swift:68-79 | The agent's content carries the save's token, with or without HTML |
| `Clipboard.AgentText` | native/screen-helper/ComputerClipboard.swift:68-77 | An app that asks for plain text gets the agent's, and one that asks for HTML gets it if there is some and nothing otherwise |
| `Clipboard.Pasteboard.RestorePending` | native/screen-helper/ComputerClipboard.swift:104-111 | The pending save is put back only over its own token, its file goes, and nothing changes without one |
| `Clipboard.Pasteboard.RecoverLeftovers` | native/screen-helper/ComputerClipboard.swift:113-129 | For any directory and any order of its files, the saves of dead owners go, and the board is what restoring them in that order gives |
| `Clipboard.OrderDoesNotMatter` | native/screen-helper/ComputerClipboard.swift:113-129 | When every save holds the person's own content, the board becomes that of the save its token names, in whatever order the files come |
| `Clipboard.NestedSavesNeedTheirOrder` | native/screen-helper/ComputerClipboard.swift:113-129 | When one save holds another helper's content, the person's clipboard comes back from one order of the two files and is gone after the other |
| `Clipboard.Pasteboard.Paste` | native/screen-helper/ComputerPaste.swift:43-68 | A whole paste leaves the readable content from before, or what the person copied after the agent's write, and loses what they copied before it; the disk is as before and nothing is pending; a board that could all be read is the very same board |
| `Scheduler.StepKeeps` | native/screen-helper/CommandScheduler.swift:10-25 | Submitting, beginning and ending keep the invariants over tails, revisions and awaited tasks |
| `Scheduler.RunKeeps` | native/screen-helper/CommandScheduler.swift:10-25 | The invariants hold in every state of every run |
| `Scheduler.BeginInOrder` | native/screen-helper/CommandScheduler.swift:15-18 | A task that passes its two awaits has every earlier task of its lane, or of the coordinated ones, behind it, though it awaited only the last |
| `Scheduler.IndependentLanesGoOn` | native/screen-helper/CommandScheduler.swift:3-18 | In every state of every run a waiting command may begin if and only if every earlier one with the same key, or coordinated like it, is over |
| `Scheduler.LanesAreSerial` | native/screen-helper/CommandScheduler.swift:10-25 | In every state of every run, of any two tasks with one key, or two coordinated ones, the later waits until the earlier is finished; and `pending` is the number unfinished, at most 32 |
| `Scheduler.SomeoneCanProceed` | native/screen-helper/CommandScheduler.swift:15-18 | While a task is unfinished, some task runs or may begin: no deadlock |
| `Scheduler.DrainWaitsForAll` | native/screen-helper/CommandScheduler.swift:26-29 | When the tails taken at a drain's call are finished, every task submitted before the call is, though tails are removed as lanes empty |
| `Scheduler.CommandScheduler.Submit` | native/screen-helper/CommandScheduler.swift:10-25 | Refused exactly at 32 pending, without a change; otherwise the new task joins its lane, and the invariants hold |
| `Scheduler.CommandScheduler.Begin` | native/screen-helper/CommandScheduler.swift:15-18 | A command that may begin runs, nothing else changes, and the invariants hold |
| `Scheduler.CommandScheduler.End` | native/screen-helper/CommandScheduler.swift:19-21 | `pending` was positive; a lane is dropped only by its newest task, and the invariants hold |
| `FrameWriter.StepKeeps` | native/screen-helper/FrameWriter.swift:40-71 | Publishing, retiring and each turn of the flush loop keep the invariants over queue, history and stream |
| `FrameWriter.RunKeeps` | native/screen-helper/FrameWriter.swift:40-71 | The invariants hold in every state of every run |
| `FrameWriter.StreamIsWholePackets` | native/screen-helper/FrameWriter.swift:53-71 | In every run the bytes written are whole published packets and a prefix of the current one |
| `FrameWriter.SessionKeepsItsOrder` | native/screen-helper/FrameWriter.swift:40-71 | In every run each session's packets are started in the order it published them, none twice, and its newest was started, is queued or was retired |
| `FrameWriter.TurnsAreExact` | native/screen-helper/FrameWriter.swift:40-71 | `order` has no repeats and exactly the keys of `latest`; the source is not suspended while work is left; resumes and suspends alternate |
| `FrameWriter.TurnComesInTime` | native/screen-helper/FrameWriter.swift:40-71 | While a session stays queued, the packets that start are at most the sessions ahead of it, however often others publish |
| `FrameWriter.EmptyPacketStopsTheStream` | native/screen-helper/FrameWriter.swift:58-69 | Once an empty packet is current, it stays so and nothing is written in any continuation |
| `FrameWriter.OnlyEmptyPacketsStop` | native/screen-helper/FrameWriter.swift:57-69 | In every run, whatever was published, the socket can take a byte of the current packet if and only if the packet has one |
| `FrameWriter.EmptyPacketGetsItsTurn` | native/screen-helper/FrameWriter.swift:40-69 | For every session there is a run in which an empty packet becomes current |
| `FrameWriter.Writer.PublishPacket` | native/screen-helper/FrameWriter.swift:40-48 | The packet replaces the session's queued one in its place in the order, or queues it last, and the invariants hold |
| `FrameWriter.Writer.RetireSession` | native/screen-helper/FrameWriter.swift:49-52 | The session leaves queue and order and nothing else changes, and the invariants hold |
| `FrameWriter.Writer.Flush` | native/screen-helper/FrameWriter.swift:53-71 | For any answers of the socket, the loop is the sequence of turns the theorems are about |
| `Outline.PoppedIsPath` | native/screen-helper/ComputerSearch.swift:28-28 | After the pops the stack is exactly the node's ancestors, outermost first |
| `Outline.PushedIsStack` | native/screen-helper/ComputerSearch.swift:33-33 | After the push the stack is exactly the nodes still open |
| `Outline.Candidates` | native/screen-helper/ComputerSearch.swift:22-36 | In order, exactly the nodes that match or have a matching descendant; every node for a query the index does not support |
| `Outline.MatchesIs` | native/screen-helper/ComputerSearch.swift:12-29 | A line matches if and only if it is not plain ASCII or some stretch of it is the query but for the case of letters |
| `Outline.SearchIsPruning` | native/screen-helper/ComputerSearch.swift:22-36 | On the outline of any forest the search gives the outline of the forest without the branches in which nothing matches |
| `Marks.Intersection` | native/screen-helper/ComputerMarks.swift:21-24 | A point is in the intersection if and only if it is in both rectangles |
| `Marks.TopIsClip` | native/screen-helper/ComputerMarks.swift:19-22 | The top of the clip stack is the window cut by exactly the scroll areas above the node |
| `Marks.ClipIsWindowAndScrollAreas` | native/screen-helper/ComputerMarks.swift:16-22 | A point is in a node's clip if and only if it is in the window and in the frame of every scroll area above the node |
| `Marks.MarkIsInside` | native/screen-helper/ComputerMarks.swift:23-30 | Every point of a tag, taken back to the screen, is in the element, the window and every scroll area around it |
| `Marks.TaggedExactly` | native/screen-helper/ComputerMarks.swift:23-32 | An element gets a tag, with its own id, if and only if it acts, is no window, is at least 6 by 6 and less than four tenths of the window, and two of its points 4 apart each way are in the window and every scroll area around |
| `Marks.MarksOf` | native/screen-helper/ComputerMarks.swift:13-34 | The one pass gives the tags that each node's own clip calls for, in order, cut at 300 |
| `Framing.OneByte` | native/screen-helper/ComputerRequestLine.swift:20-37 | One more byte closes the last line of a stream or lengthens it |
| `Framing.LineFramer.Feed` | native/screen-helper/ComputerRequestLine.swift:20-37 | The lines returned are those the bytes complete in the stream so far; the buffer holds at most the limit, or the kept prefix of an over-long line |
| `Framing.FeedAll` | native/screen-helper/ComputerRequestLine.swift:20-37 | However a stream is cut into chunks, the lines are those of the stream, over-long ones as their first 4096 bytes |
| `Framing.LinesEnded` | native/screen-helper/ComputerRequestLine.swift:20-37 | Lines written one after another are reported one by one, one longer than the limit by its first 4096 bytes or as many as the limit and one more |
| `Framing.TakeStable` | native/screen-helper/Transcoder.swift:40-52 | A whole packet stays the same packet when more arrives |
| `Framing.PacketsCat` | native/screen-helper/Transcoder.swift:27-35 | Reading what arrived and then the rest with what was left gives the packets, and the remainder, of the whole |
| `Framing.WrittenPackets` | native/screen-helper/Transcoder.swift:40-52 | Packets written as header length, header and payload, within the bounds of lines 45 and 49, are read back one by one, and what follows them as it would be alone |
| `Framing.ReadPackets` | native/screen-helper/Transcoder.swift:40-52 | Whatever arrived is the packets read from it, written that way, and the remainder |
| `Framing.PacketReader.Receive` | native/screen-helper/Transcoder.swift:27-35 | The greedy loop takes every packet there is and keeps the remainder |
| `Framing.ReceiveAll` | native/screen-helper/Transcoder.swift:27-52 | However a stream is cut into chunks, the packets are those of the whole stream |
| `Framing.MalformedStopsTheReader` | native/screen-helper/Transcoder.swift:40-52 | Once the header at the front is known, no packet ever comes, whatever arrives, if and only if the front is malformed |
| `Framing.ZeroLengthStopsTheReader` | native/screen-helper/Transcoder.swift:44-47 | Four zero bytes are such a front |
| `Elements.AfterKeeps` | native/screen-helper/ComputerElements.swift:31-65 | Every walk, lookup and prune keeps the two tables inverse, and gives no id issued before another meaning |
| `Elements.IdsAreNeverReissued` | native/screen-helper/ComputerElements.swift:31-65 | Over every run an id names its element or nothing, and one that stopped resolving never resolves again |
| `Elements.ChangeRetires` | native/screen-helper/ComputerElements.swift:33-51 | A changed fingerprint gives the element a new id, and the old one stops resolving |
| `Elements.RecycledViewGetsANewId` | native/screen-helper/ComputerElements.swift:33-51 | Over every run, from its events alone: an element looked up with one fingerprint and next with another, its id still resolving, gets another id and the old one stops resolving if and only if the two differ |
| `Elements.RefreshedIdResolves` | native/screen-helper/ComputerElements.swift:31-65 | An id handed out in walk g resolves to its element through walk g + 8, whatever is looked up and pruned, unless the element comes back changed |
| `Elements.ElementRegistry.BeginWalk` | native/screen-helper/ComputerElements.swift:31-31 | A walk counts and changes no table |
| `Elements.ElementRegistry.IdFor` | native/screen-helper/ComputerElements.swift:33-51 | The id returned resolves to the element; the tables are those of the run theorems and stay inverse |
| `Elements.ElementRegistry.Forget` | native/screen-helper/ComputerElements.swift:56-65 | In whatever order the loop goes, exactly the ids not refreshed in the last 8 walks leave all four tables |
| `Typing.TypingPlan` | native/screen-helper/ComputerKeys.swift:109-129 | The steps spell the text; each chunk is within the limit or one character, and none could have taken the next character |
| `Typing.DeliveryIsExact` | native/screen-helper/ComputerKeyboard.swift:86-141 | Exactly the text arrives, once, if and only if the app takes every later chunk whole once it took one; otherwise fewer characters arrive than the text has |
| `Typing.SteadyAppsAreConsistent` | native/screen-helper/ComputerKeyboard.swift:86-141 | An app that takes every such event whole, or none, meets that condition on every text |
| `Typing.LaterCutLosesCharacters` | native/screen-helper/ComputerKeyboard.swift:114-120 | For every text of two full chunks, an app that takes the first whole and cuts the second gets 21 of the 40 characters |
| `Typing.DropExact` | native/screen-helper/ComputerKeyboard.swift:130-138 | Counting UTF-16 units past the caret's advance drops exactly the characters that landed |
| `Typing.PostTyping` | native/screen-helper/ComputerKeyboard.swift:89-151 | For every app and every mode learned before, the field is that of a good plan's steps, it is the text exactly when the app is consistent, and an app is tried on its first chunk of several characters and on no other |
| `Typing.SteadyTyped` | native/screen-helper/ComputerKeyboard.swift:89-141 | A steady app of which nothing false is believed gets the text, and nothing false is learned of it |
| `Typing.TypeAll` | native/screen-helper/ComputerKeyboard.swift:89-141 | Over any number of texts, with the modes carried from one to the next, everything typed into a steady app arrives exactly and once |
| `Visible.VisibleRange` | native/screen-helper/ComputerVisible.swift:22-40 | On any list, a slice between a row that ends above and one that does not, up to the first obstacle; on a top-to-bottom list, the linear scan cut at the limit with exact counts above and below; nothing only for an unreadable frame; at most the binary digits of the count plus the limit in frame reads |
| `Visible.SearchIsScan` | native/screen-helper/ComputerVisible.swift:12-40 | On a top-to-bottom list of non-empty frames the searched slice is the rows called neither above nor below, cut at the limit; its low end counts the rows above, and what follows it the rows below and those cut off |
| `Visible.ScanIsInterval` | native/screen-helper/ComputerVisible.swift:14-20 | Reading every frame of such a list finds three intervals, though the search looks at one edge of a row each time |
| `Visible.SightIs` | native/screen-helper/ComputerVisible.swift:14-20 | A frame is above if none of its points is more than one past the top edge, else below if none is more than one before the bottom edge, else beside if the same holds of a side, and shown if there are points past each edge |
| `Visible.BitsIsLogarithm` | native/screen-helper/ComputerVisible.swift:22-24 | The bound on the reads is logarithmic: k are enough exactly below two to the k rows |
| `Mouse.PressedIsHeld` | native/screen-helper/ComputerPointer.swift:168-174 | At every point of a plan `pressed` names exactly the button that is down, where the last event was, with the click state of its press |
| `Mouse.ReleaseIsEnough` | native/screen-helper/ComputerPointer.swift:177-180 | Wherever a plan stops, the release is at most one event, comes exactly when a button is down, at the last posted point, and leaves none down |
| `Mouse.RunMouse` | native/screen-helper/ComputerPointer.swift:164-181 | For any checkpoint and pause failures the events posted are the whole plan, or the prefix before the first failure and the release; after any plan that is safe to stop, no button is down |
| `Mouse.ClickEvents` | native/screen-helper/ComputerPointerPlans.swift:132-143 | A plan that is safe to stop anywhere, with one press for a count up to 1, two for 2 and three for more, of rising click state, the last one held |
| `Mouse.DragEvents` | native/screen-helper/ComputerPointerPlans.swift:145-165 | A plan that is safe to stop anywhere: a press at the start, drags at their fractions of the way with their pauses, and the release at the end |
| `Mouse.DragStaysOnTheWay` | native/screen-helper/ComputerPointerPlans.swift:154-163 | Every drag is on the line between start and end, between the two, at its fraction of the distance from the start, and the last one is where the release comes |
| `Mouse.GlideStep` | native/screen-helper/ComputerPointerPlans.swift:145-149 | From 96 points to 492 a step of the glide is at least 12 points and less than 13.5 |
| `Mouse.DragGoesForward` | native/screen-helper/ComputerPointerPlans.swift:154-162 | The pointer never turns back if and only if the way is empty or at least 32 points long |
| `Noise.AnswerIsExact` | native/screen-helper/ComputerSettler.swift:24-33 | For every history with a clock that does not run backwards, the trimmed and purged table answers as counting the whole history does: no indicator of the four roles, and at most `burst` of this notification from this element within the window |
| `Noise.OnlyTheRecentExceed` | native/screen-helper/ComputerSettler.swift:31-31 | A table of more than 512 keys holds only elements heard within the window |
| `Noise.KeepRecent` | native/screen-helper/ComputerSettler.swift:28-28 | The filter keeps exactly the recent times, in order |
| `Noise.SettleNoise.Counts` | native/screen-helper/ComputerSettler.swift:24-33 | The answer and the new table are those the theorem is about |

## Left out

- CssMeaning.StripKeeps: says nothing of shorthands, `!important`, nested rule bodies or comments inside selectors and declarations, because the rewrite is for Tailwind's flat longhands; of `@scope` proximity; or of a selector list that a browser rejects as a whole.
- CssMeaning.StripKeeps: how layers rank is the same before and after, so the effect of a dropped `@layer properties` on the order of other layers is not captured.
- CssLimits.AtSelectorIsLost: a browser rejects that selector list as a whole, so the element the lemma names exists in the model only; it shows what the code does with such a list.
- CssCascade.WinnerIsLastHighest: the cascade is that of the cited standard, which the source names only as what its output must keep.
- CssLoops.ParseCss: characters are Unicode scalars where JavaScript has UTF-16 units, and lower-casing is that of ASCII.
- The Vite plugin around the rewrite (apps/web/css-polyfills.ts:225-238).
- AnnexB.BuildSample: a unit of 4 GiB or more stops the source; it is required not to occur. The packet's JSON header, the 8 MiB cap and VideoToolbox calls are not part of this model.
- VideoPipeline.LastPictureIsNeverLost: scaling, bit rates and closing are not modelled, here and for the frame-file encoder.
- Clipboard.ClipboardComesBack: a save that cannot be written to disk, a board write that is seen half done, and a recovery beside a live helper are not covered; nor are the lock's timeout and the wait for the app.
- Scheduler.CommandScheduler.End: the end of an operation and the cleanup after it are one step.
- FrameWriter.Writer.Flush: the fatal exit on a write error and the flag `closed`, which nothing sets, are not modelled.
- Outline.Candidates: the spelling of an outline line is a given string, and lower-casing is that of ASCII, which is all the source uses it on.
- Marks.MarksOf: coordinates are exact reals; drawing is not modelled. `acts` is a given flag.
- Framing.ReceiveAll: the JSON header is an arbitrary function from header bytes to a payload size.
- Elements.IdsAreNeverReissued: ids are unbounded, where the source's would trap at the end of its integers.
- Typing.PostTyping: the caret's advance is taken as exact and prompt; a field that reports only its length or value, the 300 ms wait and a checkpoint that stops typing half way are not modelled.
- Visible.VisibleRange: a row's frame is the same at every read.
- Mouse.DragEvents: the distance is a real number known by its square, since the model has no square root, and coordinates are exact.
- Noise.SettleNoise.Counts: times are unbounded naturals, which never matters below 64 bits.
- One-bundle-one-session exclusivity in the helper's service, whose invariant the source itself breaks across an await.
- One-branch policies (routing, guards, session status), capture, overlays, drawing, benchmarks and the build scripts: a reading settles what they do.
