# addMiddleware edit planner, modelled in Dafny

The VS Code extension for Dojo widgets has a command, `addMiddleware(middleware)`, that adds a middleware to the widget module open in the editor. This project models what that command decides to do. The command stages these edits:

- an `import` of the middleware after the vdom import;
- a rewrite of the `create(...)` factory call that lists the middleware, plus, for `store`, a `const store = createStoreMiddleware();` line before it;
- for `theme` and `i18n`, a companion import after the last import line, and the companion files (stylesheet and its typings, or message bundle) when they do not exist yet;
- a rewrite of the widget factory call's `middleware` block, plus, for `theme` and `i18n`, a `themedCss` or `messages` line inserted right after the widget factory's anchor line (the line whose middleware block is edited).

The model is a pure function. It takes the middleware name, the indentation unit, the module's file name, the set of files that already exist, the regex tests as opaque matchers, and the lines found by the line lookups. It returns a `Plan`: the list of edits, in the order the command stages them, and the files to write.

The files:

- `wrappers.dfy` (`Wrappers`): `Option`.
- `editor.dfy` (`Editor`): positions, ranges, document lines, edits and file writes, plus what it means for an edit to address a line.
- `string_ops.dfy` (`StringOps`): the JavaScript string operations the command relies on, each with its characterisation:
  - `String.prototype.replace` with a string pattern, which replaces the first occurrence only;
  - counting the matches of `new RegExp(tab, 'g')`;
  - `repeat`;
  - capitalising the first character;
  - the two global regular expressions written inline in the command, `/[ ]*\}/g` and `/[ ]*}[ ]*\)/g`, as left-to-right scanners.
- `middleware.dfy` (`Middleware`): the four steps of the command and the whole plan.
- `middleware_properties.dfy` (`MiddlewareProperties`): what each branch produces for the line shapes it recognises, how deep inserted lines are indented, which companion files are written, and how the steps combine.

The indentation of an inserted line is meant to be one unit deeper than the line it follows. The code computes it by counting *every* occurrence of the indentation unit anywhere in the line (middleware.ts:41 and :111), not only the leading ones, and the model does the same. `MiddlewareProperties.IndentationOfIndentedLine` shows that the two readings agree when the text after the leading units holds no further unit.

## Model

| member | source | states |
|---|---|---|
| Middleware.ImportName | vscode-snippets/src/middleware.ts:17-20 | `store` is imported as `createStoreMiddleware`; every other middleware is imported under its own name |
| Middleware.ImportEdits | vscode-snippets/src/middleware.ts:22-26 | exactly one import is inserted if and only if the vdom import line was found; it goes right after that line's line break and reads `import <name> from '@dojo/framework/core/middleware/<middleware>';` with a CRLF |
| Middleware.ClassifyCreate | vscode-snippets/src/middleware.ts:32-47 | the line is extended if and only if the pattern matches with a non-empty capture; the middleware goes on its own line if and only if the capture is empty and the call stands alone; the unmatched shape, which writes the line back unchanged, is chosen if and only if the pattern does not match; the empty-call shape, which rewrites the first `create()` if there is one, is chosen if and only if the capture is empty and the call does not stand alone |
| Middleware.StoreDeclaration | vscode-snippets/src/middleware.ts:52-58 | the line declaring the store for `store` is `const store = createStoreMiddleware();` with a CRLF |
| Middleware.CreateEdits | vscode-snippets/src/middleware.ts:28-60 | one edit at the create line, or two for `store`; it is an insertion after the line exactly when the call stands alone, and then it inserts the unit repeated once more than it occurs in the line, followed by `<middleware>,` and a CRLF; otherwise it replaces the line; the store declaration is inserted at the start of the line; every edit addresses the create line |
| Middleware.CompanionPlan | vscode-snippets/src/middleware.ts:62-87 | exactly one companion import is inserted, after the last import line, if and only if the middleware is `theme` or `i18n` and an import line was found; for `theme` it reads `import * as css from './<name>.m.css';` and for `i18n` `import bundle from './<name>.nls';`, each with a CRLF; files are written only in that case; no existing file is ever overwritten |
| Middleware.WidgetAnchor | vscode-snippets/src/middleware.ts:89-99 | the start line is used when the call closes on it or when the bounded search finds nothing; otherwise the line the search found is used |
| Middleware.ClassifyWidget | vscode-snippets/src/middleware.ts:102-120 | existing middleware is extended if and only if the pattern matches with a non-empty capture; the middleware goes on its own line if and only if the capture is empty and the middleware object opens alone; the matched-other shape, which writes the line back unchanged, is chosen if and only if the capture is empty and the object does not open alone; the call-close rewrite is chosen if and only if the pattern does not match and the line holds a `}` followed by optional spaces and `)`; the empty-call shape, which rewrites the first `()` if there is one, is chosen if and only if the pattern does not match and the line holds no such sequence |
| Middleware.FollowUpLine | vscode-snippets/src/middleware.ts:125-138 | a follow-up line, inserted right after the widget factory's anchor line, exists if and only if the middleware is `theme` or `i18n` |
| Middleware.WidgetEdits | vscode-snippets/src/middleware.ts:100-138 | one edit at the anchor line, or two for `theme` and `i18n`; it is an insertion exactly when the middleware object opens alone on the line, and then it inserts the unit repeated once more than it occurs in the line, followed by `<middleware>,` and a CRLF; the follow-up line is inserted after the anchor; every edit addresses the anchor line |
| Middleware.AddMiddleware | vscode-snippets/src/middleware.ts:9-141 | the number of edits is the sum over the steps whose anchors were found; every edit addresses a line a lookup found; the files written are the companion step's, so no file that exists is written, files are written only for `theme` or `i18n` with an import line, and then exactly the missing companion files are written (`MiddlewareProperties.CommandWritesMissingCompanions`) |
| StringOps.ReplaceFirstAt | vscode-snippets/src/middleware.ts:38 | replacing a string pattern rewrites only its leftmost occurrence and keeps the text before and after it |
| StringOps.ReplaceFirstSplit | vscode-snippets/src/middleware.ts:45 | in `pre + pat + post` where `pat` does not occur earlier, the replacement yields `pre + rep + post` |
| StringOps.ReplaceFirstAbsent | vscode-snippets/src/middleware.ts:45 | replacing a pattern that does not occur leaves the line unchanged |
| StringOps.Repeat | vscode-snippets/src/middleware.ts:42 | repeating the unit `n` times gives `n` times its length |
| StringOps.CountMatchesRepeat | vscode-snippets/src/middleware.ts:41 | counting a non-empty unit over `n` copies of it followed by other text gives `n` plus the count in that text |
| StringOps.CountMatchesAbsent | vscode-snippets/src/middleware.ts:41 | a non-empty unit that does not occur is counted zero times, as when `match` finds nothing |
| StringOps.UpperFirst | vscode-snippets/src/middleware.ts:19 | the first character is capitalised and the rest is kept |
| StringOps.ReplaceSpacedBracesNoBrace | vscode-snippets/src/middleware.ts:37 | a capture without `}` is left unchanged by the global `[ ]*\}` replacement |
| StringOps.ReplaceSpacedBracesSplit | vscode-snippets/src/middleware.ts:37 | the first `}`, together with the whole run of spaces before it, is replaced, and scanning resumes after it |
| StringOps.ReplaceCallClosesNone | vscode-snippets/src/middleware.ts:115-116 | a line without a `}`, spaces, `)` sequence is left unchanged |
| StringOps.ReplaceCallClosesSplit | vscode-snippets/src/middleware.ts:116 | the first `}`, spaces, `)` sequence, with the spaces before it, is replaced; the text before it, which may hold other `}`, is kept; scanning resumes after its `)` |
| StringOps.HasCallCloseOf | vscode-snippets/src/middleware.ts:115 | the inline test finds every line that contains such a sequence |
| MiddlewareProperties.ExtendCaptureAppends | vscode-snippets/src/middleware.ts:36-37 | for a captured object with no nested `}`, the middleware is appended as its last entry, and the existing entries keep their text and order |
| MiddlewareProperties.AppendToCaptureAt | vscode-snippets/src/middleware.ts:38 | only the leftmost occurrence of the capture in the line is rewritten |
| MiddlewareProperties.AppendToCaptureInLine | vscode-snippets/src/middleware.ts:36-38 | a line with a `{ ... }` object is rewritten in place, with the middleware added last and the rest of the line kept |
| MiddlewareProperties.IndentationOneDeeper | vscode-snippets/src/middleware.ts:41-42 | the inserted indentation holds exactly one more unit than the anchor line |
| MiddlewareProperties.IndentationOfIndentedLine | vscode-snippets/src/middleware.ts:41-42 | a line indented by `k` units whose remaining text holds no unit gets an inserted line indented by `k + 1` units |
| MiddlewareProperties.CreateWithArgumentsEdit | vscode-snippets/src/middleware.ts:35-49 | when the create line has arguments, the line is replaced, with only the captured arguments extended |
| MiddlewareProperties.AppendToCaptureExample | vscode-snippets/src/middleware.ts:36-38 | `create({ a, b })` with `c` added becomes `create({ a, b, c })` |
| MiddlewareProperties.CreateWithArgumentsExample | vscode-snippets/src/middleware.ts:35-49 | a create line `create({ a, b })` is replaced with `create({ a, b, c })` |
| MiddlewareProperties.CreateAloneEdit | vscode-snippets/src/middleware.ts:39-43 | a `create(` standing alone is never rewritten; the middleware goes on a new line after it, one unit deeper |
| MiddlewareProperties.CreateUnmatchedEdit | vscode-snippets/src/middleware.ts:28-50 | a create line the pattern does not match is replaced by its own text |
| MiddlewareProperties.CreateEmptyNoLiteralEdit | vscode-snippets/src/middleware.ts:44-49 | a matched line with an empty capture that does not stand alone and holds no literal `create()` is replaced by its own text |
| MiddlewareProperties.CreateEmptyEdit | vscode-snippets/src/middleware.ts:44-49 | an empty `create()` becomes `create({ <middleware> })` and the rest of the line is kept |
| MiddlewareProperties.CompanionFilesProvided | vscode-snippets/src/middleware.ts:62-87 | once an import line exists, the written files are exactly the companion files that were missing, each with the fixed contents of its kind |
| MiddlewareProperties.CommandWritesMissingCompanions | vscode-snippets/src/middleware.ts:62-87 | once an import line exists, the whole command writes exactly the companion files that were missing, each with the fixed contents of its kind |
| MiddlewareProperties.CompanionRerun | vscode-snippets/src/middleware.ts:62-87 | running the step again after its writes writes nothing, but stages the same import edit again |
| MiddlewareProperties.WidgetStartLineUntouched | vscode-snippets/src/middleware.ts:89-99 | when the bounded search finds a later line, that line is the anchor, and every widget edit lies below the start line |
| MiddlewareProperties.WidgetWithMiddlewareEdit | vscode-snippets/src/middleware.ts:105-123 | existing middleware in the widget factory is extended in place, and nothing else on the line changes |
| MiddlewareProperties.WidgetAloneEdit | vscode-snippets/src/middleware.ts:109-113 | a middleware object opening alone is never rewritten; the middleware goes on a new line after it, one unit deeper |
| MiddlewareProperties.WidgetMatchedOtherEdit | vscode-snippets/src/middleware.ts:104-123 | a matched factory line with an empty capture whose middleware object does not open alone is replaced by its own text |
| MiddlewareProperties.WidgetCallCloseEdit | vscode-snippets/src/middleware.ts:115-123 | a factory call closing with `} )` gains a `middleware` block in place of its first such sequence; the text before it is kept, even when it holds other `}`; with no further such sequence, the rest of the line is kept |
| MiddlewareProperties.WidgetEmptyCallEdit | vscode-snippets/src/middleware.ts:118-123 | otherwise the first `()` becomes `({ middleware: { <middleware> } })` |
| MiddlewareProperties.WidgetEmptyCallNoParensEdit | vscode-snippets/src/middleware.ts:118-123 | with no match, no `}`, spaces, `)` sequence and no `()`, the anchor line is replaced by its own text |
| MiddlewareProperties.EmptyCreateScenario | vscode-snippets/src/middleware.ts:22-49 | with a vdom import and an empty `create()`, the plan begins with the middleware's import and then the rewritten `create({ <middleware> })` |
| MiddlewareProperties.StoreScenario | vscode-snippets/src/middleware.ts:17-58 | for `store`, the import names `createStoreMiddleware`, and the store declaration follows the create-line edit at the start of that line |
| MiddlewareProperties.CreateStepIndependent | vscode-snippets/src/middleware.ts:28-60 | the create step can be skipped independently: with a create line, the plan is the plan without it, with that line's edits right after the import |
| MiddlewareProperties.PlanNonOverlapping | vscode-snippets/src/middleware.ts:22-138 | when the found lines are well formed, distinct by number, and the create line is not the widget factory's anchor line, no two edits of the batch cover overlapping ranges (an insertion counts as the empty range at its position) |
| MiddlewareProperties.CoincidingLinesOverlap | vscode-snippets/src/middleware.ts:48-122 | when the create line is also the widget factory's anchor and both patterns capture existing entries, the batch replaces that line twice, and the two replacements overlap |
| MiddlewareProperties.FollowUpScenario | vscode-snippets/src/middleware.ts:100-138 | `theme` and `i18n` end the plan with their follow-up line after the anchor; other middleware ends it with the anchor's own edit |

## Left out

- The VS Code API (`document`, `editBuilder`, `options`) is replaced by data. `findLine` (in `util`) is not part of this model. Its results are inputs: the vdom import line, the `create` line, the last import line, the widget factory start line, and the result of the bounded search from that start line.
- The patterns built by `regexFactory` (in `regex`) are not part of this model. Each pattern is an opaque test, or an opaque match with its first capture group, supplied with the input. `lastIndex` is reset before every `exec`, so the patterns are stateless here.
- `getTab` is not part of this model. The indentation unit is an input.
- `path.parse` and `path.join` are not modelled. The module's base name is an input. Companion files are named by that base name and their suffix, without the directory.
- `existsSync` becomes the input set of existing files. `writeFileSync` becomes the plan's list of writes. The files are not created while the plan is built, so a file is considered missing if it was missing before the command ran.
- Applying the edits to the document is not modelled. The plan states where each edit goes and what it inserts or replaces, in the order the command stages them.
- StringOps.ReplaceFirst: the `$` substitution patterns of a string-pattern replacement (`$$`, `$&`, `` $` ``, `$'`) are not interpreted; `$1` is not one of them, since a string pattern has no capture groups. JavaScript would substitute them in a middleware name containing `$`, and also in the extended capture at middleware.ts:38 and :108, which carries argument text from the edited file; the model keeps them literally.
- StringOps.CountMatches: the unit is matched literally, as the indentation unit of spaces or a tab always is. A unit containing regular-expression metacharacters would be read as a pattern by `new RegExp`. An empty unit gives one match per position plus one, as in JavaScript.
- StringOps.ToUpper: only ASCII letters are capitalised. That is enough for `store`, the only name the command capitalises.
- Strings are sequences of characters, not UTF-16 code units.
- MiddlewareProperties.WidgetStartLineUntouched: the claim is stated in line numbers, not as "addresses no position of the start line". An insertion after the last line of the document can share a position with the start line's end when the two lines are adjacent and the later one is empty.
- MiddlewareProperties.PlanNonOverlapping: the batch is shown free of overlaps only when the create line and the widget factory's anchor are different lines. Nothing in the code keeps them apart: when they are the same line and both steps rewrite it, the batch replaces one range twice, as `MiddlewareProperties.CoincidingLinesOverlap` shows. The lemma also takes the editor's lines to be well formed and told apart by their numbers, which the editor guarantees and the model cannot see.
