# globrex in Dafny

A model of `globrex`, the function that translates a shell-style glob into a
regular-expression source string and, at the same time, splits it into one
regex source per path segment. The model is one left-to-right scan with one
character of lookahead. A scan state holds:

- the position;
- the whole-pattern buffer `reStr` and the open `segment` buffer;
- the filed `segments`;
- the extglob marker stack;
- the brace flag `inGroup` and the bracket flag `inRange`.

One step is a pure function of the glob, the options and the state. The
`switch` with its fallthrough becomes a chain of `Case…` functions, where
falling through to the next label means calling the next function.
`Compile` is the whole call. It returns the anchored pattern string, the
segment strings and the flags, or `Hangs(at)` where the POSIX-class name scan
never returns a result.

Modules:

- `Config`: the options record and the shared vocabulary: anchoring, escaping and extglob markers.
- `Globrex`: the `add` helper, every `case` of the scan, the loop and the final anchoring.
- `Rules`: one lemma per kind of character, saying what one step does.
- `ScanProps`: whole-scan properties:
  - what `extended` switches on;
  - when the scan cannot return a result: a reached `[` inside a bracket class, followed by `:` with no later `:`, in both directions;
  - the regex flags change nothing but anchoring.
- `PathSegments`: an independent reference translation for the mode with neither `extended` nor `windows`:
  - cut the glob at `/`;
  - translate each piece on its own;
  - join the pieces with separator tokens.

  The main theorem proves the scan equals the reference.
- `Literals`: globs without wildcards, and escaping as an invertible map.
- `ExtglobFree`: a glob with no extglob, brace or bracket characters translates the same with or without `extended`.
- `Shapes`: families of globs as in the examples the repository tests: `a//b`, `a/**/b` and `a\b` in windows mode.

The model follows the code. The doc comment of `globrex` gives `strict` a
default of `true` (src/index.js:9), but the code uses `false`
(src/index.js:14), and so does the model. A reader might also expect some
things to work differently from how the code does them:

- Filed segments are anchored only when the flags lack `g`, exactly as the whole pattern is (src/index.js:27).
- There is no separate windows pre-pass.
  - `\` always emits `\\+` and always swallows one directly following `\`.
  - It closes a segment only in windows mode.
  - In windows mode `/` is escaped but does not close a segment (src/index.js:56-66).
- The tests at test/index.js:90-98 and test/index.js:328-336 expect a leading `\` to become `\/`. The code emits `\\+`, and the model follows the code.

## Model

| member | source | states |
|---|---|---|
| Config.MarkerOf | src/index.js:96-131 | The marker pushed for `@ ! + * ?` is the character itself: `MarkerChar` maps it back. |
| Globrex.Add | src/index.js:22-34 | `add` always appends to the whole pattern. Without `split`, the segment grows by the same text and nothing is filed. With `split`, the closing text (taking `str` along when `addLastPart`) is filed, anchored as the flags say, only when non-empty, and the segment restarts empty. Position, stack and flags are untouched. |
| Globrex.RunEnd | src/index.js:178-186 | The star-run loop stops just past a maximal run: every character in between is `*` and the next one is not. |
| Globrex.FindColon | src/index.js:136 | The name loop finds the first `:` after the opener, and there is none exactly when no `:` follows. |
| Globrex.PosixClass | src/index.js:132-141 | A POSIX class step files nothing. It moves forward at most one past the end. It gets stuck only when no `:` follows the opener. |
| Globrex.Step | src/index.js:46-209 | One loop iteration moves forward by at most one past the end. It only extends the whole pattern and the filed segments. Every segment it files is non-empty and anchored unless the flags hold `g`. It can get stuck only at one of `@ ! ? [` inside a bracket class, followed by `:` with no later `:`. In extended mode that character is `[`. |
| Globrex.Run | src/index.js:46-209 | The loop ends at or past the end, having only extended the whole pattern and the filed segments, with only well-formed filed segments, or gets stuck on an unclosed POSIX class. |
| Globrex.Compile | src/index.js:211-221 | The result always has at least one segment and carries the flags unchanged. Without `g` the pattern is wrapped in `^…$`, and so is the last segment, even when empty. Every earlier segment is non-empty and anchored likewise. A hang happens only on an unclosed `[:`. |
| ScanProps.StepKeepsPlain | src/index.js:96-172 | Without `extended`, a step pushes nothing and never sets `inGroup` or `inRange`. |
| ScanProps.RunKeepsPlain | src/index.js:46-209 | Without `extended`, the whole scan keeps the stack empty and both flags false, and it never gets stuck. |
| ScanProps.NonExtendedNeverHangs | src/index.js:132-141 | Without `extended`, every glob translates. |
| ScanProps.HangsOnlyOnUnclosedPosixClass | src/index.js:132-141 | A translation that does not return is in extended mode, at a `[` followed by `:` with no `:` anywhere after it. |
| ScanProps.HangIsReached | src/index.js:46-141 | Where a translation does not return, the scan from the start reached that `[` inside a bracket class. |
| ScanProps.UnclosedPosixStep | src/index.js:132-141 | A `[` inside a bracket class, followed by `:` with no `:` after it, is a step that never returns, in every mode. |
| ScanProps.ReachedUnclosedPosixHangs | src/index.js:46-141 | Conversely, once the scan from the start reaches such a `[`, the call never returns a result, and it hangs at that `[`. |
| ScanProps.UnclosedPosixClassHangs | src/index.js:132-141 | For instance, in extended mode `[[:` followed by text without `:` never returns, stuck at the second `[`. |
| ScanProps.StepTwin | src/index.js:46-209 | One step under flags with `g` and under other flags gives the same state, except that filed segments are anchored under the latter. |
| ScanProps.RunTwin | src/index.js:46-209 | The same holds for the whole scan, including where it gets stuck. |
| ScanProps.FlagsOnlyAnchor | src/index.js:211-219 | The flags change nothing but anchoring. The translation under any flags is the translation under `g` with the pattern and every segment passed through the anchoring of lines 27 and 213-216. Both hang at the same place or neither does. |
| Rules.MetaStep | src/index.js:50-55 | `$ ^ . =` are escaped in every mode and state, in both buffers. |
| Rules.PlainMetaStep | src/index.js:67-102 | Outside extended mode, with an empty stack, `( ) \| +` are escaped. |
| Rules.PlainFallthroughStep | src/index.js:103-172 | Outside extended mode, `@ ! ? [ ] { } ,` fall through to the `,` case and are escaped. |
| Rules.LiteralStep | src/index.js:50-172 | Outside extended mode, any character but `*`, `\` and `/` becomes its literal (escaped or copied) in both buffers. |
| Rules.OrdinaryStep | src/index.js:206-207 | In every mode, a character with no rule is copied to both buffers and the scan moves on by one. |
| Rules.SlashStep | src/index.js:63-66 | Outside windows mode, `/` emits `\/` and closes the segment, filing it only when non-empty. `?` is added to the whole pattern only, when the next character is `/` and not strict. |
| Rules.WindowsSlashStep | src/index.js:63-66 | In windows mode, `/` emits `\/` into both buffers and files nothing. `?` is added to the whole pattern only, when the next character is `/` and not strict. The stack and both flags are unchanged. |
| Rules.BackslashStep | src/index.js:56-62 | `\` emits `\\+`. It closes the segment in windows mode only. A directly following `\` is swallowed, and `?` then goes into the whole pattern only, unless strict. |
| Rules.StarStep | src/index.js:178-189 | Without globstar, a maximal star run emits `.*` and the scan resumes after it. |
| Rules.SegmentStarStep | src/index.js:190-203 | With globstar, a run that is not a whole segment of two or more stars emits `([^/]*)`. |
| Rules.GlobstarStep | src/index.js:190-199 | With globstar, a run of two or more stars bounded by `/` or the ends emits the globstar text. It closes the segment with that text included and skips the following character. |
| Rules.ExtglobOpenStep | src/index.js:96-131 | In extended mode, `+( @( ?( *(` push their marker and emit nothing. |
| Rules.LoneMarkerStep | src/index.js:96-121 | In extended mode, a `+` not followed by `(`, or a `!` not followed by `(` outside a class, is escaped in both buffers. |
| Rules.NegationOpenStep | src/index.js:108-119 | `!(` outside a class pushes `!`, emits `(?!` and consumes the `(`. |
| Rules.GroupCloseStep | src/index.js:74-88 | `)` with a marker emits `)` and the marker's closing text and pops it. With an empty stack it is escaped. |
| Rules.GroupInnerStep | src/index.js:67-95 | `(` and `\|` are raw inside an extglob group and escaped outside one. A raw `(` pushes nothing. |
| Rules.QuestionStep | src/index.js:123-131 | In extended mode, a `?` not opening a group emits `.`. |
| Rules.BraceStep | src/index.js:154-172 | `{` emits `(` and sets `inGroup`. `}` emits `)` and clears it. `,` emits `\|` inside a group and is escaped outside one. |
| Rules.BracketStep | src/index.js:108-153 | `[` and `]` pass through raw and set or clear `inRange`. Inside a class, `!` emits `^`. |
| Rules.LoneAtStep | src/index.js:103-121 | In extended mode, an `@` not followed by `(` falls through: `^` inside a class, escaped elsewhere. |
| Rules.PosixClassStep | src/index.js:132-141 | `[:name:]` inside a class emits the class text for `alnum`, `space` or `digit` and nothing for other names. It resumes two characters after the closing `:`, whatever that character is. |
| PathSegments.SplitPiecesSlashFree | src/index.js:63-66 | The reference cuts the glob into pieces that hold no `/`. |
| PathSegments.JoinSplit | src/index.js:63-66 | Joining the pieces with `/` gives the glob back. |
| PathSegments.SplitJoin | src/index.js:63-66 | Cutting a join of `/`-free pieces gives the pieces back. |
| PathSegments.RunWithinPiece | src/index.js:46-209 | Outside extended and windows mode, scanning a `/`-free piece appends its token-by-token translation to both buffers and changes nothing else. |
| PathSegments.RunFromPieceStart | src/index.js:46-209 | From the start of any piece, the scan produces the reference text and segments of the remaining pieces. |
| PathSegments.PlainTranslation | src/index.js:14-222 | Outside extended and windows mode, the result is the reference: the pieces' translations joined by `\/` (with `?` after a separator that another `/` follows, unless strict), no separator after a globstar piece, and anchored unless `g`. There is one segment per non-empty piece before the last, then the last piece, then an empty one after a final globstar. |
| PathSegments.TrEmpty | src/index.js:22-34 | Only the empty piece translates to nothing. |
| PathSegments.SegmentCount | src/index.js:26-30 | The reference files one segment per non-empty piece before the last, plus one for the last, plus one after a final globstar. |
| PathSegments.SegmentsPerPiece | src/index.js:219 | Outside extended and windows mode every glob translates, and the number of segments follows that count. |
| Literals.EscapeAll | src/index.js:50-172 | Escaping each character at most doubles the text and never shortens it. |
| Literals.UnescapeEscapeAll | src/index.js:50-172 | Escaping is invertible on text without `\`: dropping the escaping backslashes gives the glob back. |
| Literals.LiteralGlob | src/index.js:14-222 | Outside extended mode, in windows mode or not, a glob without `*`, `\` and `/` becomes its escaped text, both as the pattern and as its only segment. |
| Literals.RunVerbatim | src/index.js:206-207 | In every mode, characters with no rule are copied one by one to the end. |
| Literals.VerbatimGlob | src/index.js:206-221 | In every mode, a glob of characters with no rule translates to itself: it is the pattern and its only segment, anchored unless `g`. |
| Literals.RunName | src/index.js:50-172 | Outside extended mode, a stretch without `*`, `\` and `/` is scanned into its escaped text in both buffers. |
| ExtglobFree.StepIgnoresExtended | src/index.js:96-177 | In a glob with none of `( ) \| + @ ! ? [ ] { } ,`, one step does not depend on `extended`. A `*` in such a glob is never followed by `(`. |
| ExtglobFree.RunIgnoresExtended | src/index.js:46-209 | Neither does a whole scan over such a glob. |
| ExtglobFree.ExtendedIrrelevant | src/index.js:14-222 | A glob with none of `( ) \| + @ ! ? [ ] { } ,` translates the same with and without `extended`. |
| Shapes.DoubledSeparator | test/index.js:579-580 | Outside extended and windows mode, for names `a` and `b` (no `*`, `\` or `/`, `a` non-empty), `a//b` gives the escaped `a`, `\/?\/` (`\/\/` when strict) and the escaped `b`, with exactly the two segments `a` and `b`, escaped and anchored as the flags say. |
| Shapes.GlobstarBetween | test/index.js:606-608 | Outside extended and windows mode, for such names, under globstar, `a/**/b` gives the escaped `a`, `\/`, the globstar text and the escaped `b`, with three segments: `a`, the globstar text and `b`. |
| Shapes.WindowsSeparator | test/index.js:643-660 | Outside extended mode, in windows mode, for such names, `a\b` gives the escaped names around `\\+`, and `a\\b` around `\\+?` (`\\+` when strict). Both have the two segments `a` and `b`. |

## Left out

- The `RegExp` objects (src/index.js:28, 219, 221) and all matching. The pattern and the segments are their source strings, and the flags are carried as a string.
- Building those objects can throw a `SyntaxError`, during the scan at src/index.js:28 or at the end at 219 and 221. Examples are an unclosed `@(foo` or `{a,b` in extended mode, a filed segment such as `^[a$` from `[a/b]`, and invalid flags. The model returns `Compiled` with the source strings even where the program would throw.
- Text is a Dafny `string`, a sequence of Unicode scalar values, while the code indexes UTF-16 code units. The produced strings are the same, because no character with a rule is a surrogate. After a character outside the Basic Multilingual Plane, though, a `Hangs(at)` position counts one where the code counts two. A lone surrogate cannot be an input.
- Choosing the separator from `process.platform` (src/index.js:1). `windows` is an explicit option.
- The POSIX class name loop (src/index.js:136) never returns a result when no `:` follows: past the end it keeps appending the text `undefined` until the engine gives up with a `RangeError` or runs out of memory. `Hangs` stands for both. The model does not add a precondition or bound it. The scan returns `Hangs(at)`. `HangsOnlyOnUnclosedPosixClass` with `HangIsReached`, and `ReachedUnclosedPosixHangs`, state the two directions of when that happens.
- The `|| null` in the lookahead (src/index.js:48) makes no difference, because every character of a string is truthy. `NextIs` compares the next character directly.
- PathSegments.PlainTranslation: the reference translation covers the mode with neither `extended` nor `windows`. The other modes are covered step by step in `Rules`, and by `ExtglobFree` and `Shapes`.
- Shapes: the three lemmas are stated outside extended mode. The tests cited for `GlobstarBetween` and for the doubled backslash of `WindowsSeparator` use `extended: true`. For names with none of `( ) | + @ ! ? [ ] { } ,`, `ExtglobFree.ExtendedIrrelevant` carries them over. Names with braces, as in test/index.js:654-660, are not covered.
- Shapes.DoubledSeparator: states two slashes between names. The triple slash of test/index.js:622-628 follows from `PlainTranslation` and `SegmentsPerPiece` but is not stated on its own.
