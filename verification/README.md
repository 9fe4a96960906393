# Keyword style files of the `algo` LaTeX package, in Dafny

The script `factory/03-algo-basic/build-04-keywords.py` generates one LaTeX
style file per language. Each language has configuration blocks. A block is
a keyword kind (`input`, `word`, `block`, `for`, `repeat`, `ifelif`,
`switch`) plus a table that maps each keyword to its translation. For every
block the script does three things:

- it fills the empty translations and wraps the ones with a space in braces
  (`normalize`, `protect`);
- it writes the block as `\SetKw...` declarations (`macrodef`, `rawgather`,
  `texify`);
- it records every keyword and translation it has seen (`build_tex_trans`).

The lines of a language are then indented under its `\uselang...` command.
Ten textual macros such as `\TTif` and `\ALrepeat` are built from the
translations that were collected.

This project models that pipeline as pure functions and proves what each
step promises. The modules are:

- `Wrappers`: `Option`, `Result` and the three ways a step stops. These are
  a missing key (Python's `KeyError`), an unknown kind (the `exit()` branch
  of `texify`) and an odd count of macro names (an `IndexError`).
- `Text`: the Python `str` operations the script uses. These are `strip`
  (with Python's full white-space set), `title`, `upper`, `lower`,
  `startswith` and `join`, plus `split("\n")`. Each is tied to something
  other than its own definition: `strip` to the slice it keeps, `title` to
  the words of its argument, `upper` and `lower` to the case they leave,
  and `join` to where each part and separator lands and to `split`, which
  takes newline-joined lines apart again. `startswith` is the plain prefix
  test.
- `Tables`: a Python `dict` as an ordered sequence of entries, with `key in
  d`, `d[key]` and `d.update(...)`.
- `Keywords`: `protect`, `normalize`, `macrodef`, `rawgather`, `texify` and
  `build_tex_trans`.
- `LangStyle`: the indentation pass and the textual-macro builder.
- `DocExamples`: the no-plural filter and the pairing of input macros that
  the French documentation uses.

The first loop of `normalize` writes into the dictionary it is iterating
over. An automatic translation therefore reads each other entry in its
current state: already filled if that entry comes earlier, still as given
if it comes later. `Keywords.FilledValue` is an independent, entry-by-entry
definition of that result. `Keywords.Fill` proves the loop computes it.
`Keywords.PluralBeforeEmptyStem` and `Keywords.PluralAfterStem` show that
the order matters: a plural placed before its still-empty stem gets just
`s`.

## Model

| member | source | states |
|---|---|---|
| Text.Strip | factory/03-algo-basic/build-04-keywords.py:74 | `strip` gives a text that neither starts nor ends with white space |
| Text.StripTrims | factory/03-algo-basic/build-04-keywords.py:74 | `strip` keeps one contiguous slice of the text and removes only white space before and after it |
| Text.StripIdempotent | factory/03-algo-basic/build-04-keywords.py:74 | stripping an already stripped word changes nothing |
| Text.StripKeepsInnerText | factory/03-algo-basic/build-04-keywords.py:74 | every character that is not white space survives `strip` |
| Text.Title | factory/03-algo-basic/build-04-keywords.py:127 | `title` keeps the length, upper-cases a character that starts a run of letters and lower-cases every other one |
| Text.TitleIdempotent | factory/03-algo-basic/build-04-keywords.py:127 | applying `title` twice gives the same kind name as applying it once |
| Text.TitleOfLowerWord | factory/03-algo-basic/build-04-keywords.py:127 | a lower-case kind such as `for` becomes its capitalised form `For` |
| Text.Upper | factory/03-algo-basic/build-04-keywords.py:265 | `upper` keeps the length, leaves no lower-case letter, and changes no character except by case |
| Text.UpperIdempotent | factory/03-algo-basic/build-04-keywords.py:265 | a second `upper` changes nothing |
| Text.Lower | factory/03-algo-basic/build-04-keywords.py:246 | `lower` keeps the length, leaves no upper-case letter, and changes no character except by case |
| Text.JoinLength | factory/03-algo-basic/build-04-keywords.py:227 | `sep.join(parts)`, here and at lines 258, 261 and 274, is as long as the parts together plus one separator between each two of them |
| Text.JoinPart | factory/03-algo-basic/build-04-keywords.py:227 | part `i` appears unchanged in the joined text, starting after the parts before it and one separator each |
| Text.JoinSeparator | factory/03-algo-basic/build-04-keywords.py:227 | exactly one separator lies between part `i` and part `i + 1` |
| Text.SplitJoinLines | factory/03-algo-basic/build-04-keywords.py:227 | joining lines with newlines and splitting again gives the lines back, when no line holds a newline |
| Tables.Get | factory/03-algo-basic/build-04-keywords.py:167-181 | `trans[key]` succeeds exactly when the key is present, and returns that entry's translation; otherwise it is a `KeyError` for that key |
| Tables.Lookups | factory/03-algo-basic/build-04-keywords.py:165-181 | looking up several keys succeeds exactly when all are present, giving their translations in order; a failure is the `KeyError` of the first absent key |
| Tables.UpdateMap | factory/03-algo-basic/build-04-keywords.py:206 | `update` adds exactly the table's keys, keeps every other key's value, and stores each entry's translation |
| Tables.UpdateAllValue | factory/03-algo-basic/build-04-keywords.py:206 | over several `update` calls, the last table holding a key decides its value |
| Tables.UpdateAllKeeps | factory/03-algo-basic/build-04-keywords.py:206 | a key that no table holds keeps its value through every `update` |
| Keywords.Protect | factory/03-algo-basic/build-04-keywords.py:73-79 | the result holds a space exactly when the stripped word does, is braced whenever it holds a space, and has no surrounding white space |
| Keywords.ProtectRoundTrip | factory/03-algo-basic/build-04-keywords.py:73-79 | removing the braces again gives back the stripped word, so `protect` loses only the surrounding white space |
| Keywords.ProtectValue | factory/03-algo-basic/build-04-keywords.py:109-113 | the second loop of `normalize` leaves a translation without a space unchanged and protects one with a space |
| Keywords.ProtectAll | factory/03-algo-basic/build-04-keywords.py:109-113 | the second loop keeps every key and its position, leaves translations without a space unchanged, and protects those with a space |
| Keywords.FillStep | factory/03-algo-basic/build-04-keywords.py:83-106 | one turn of the first loop changes only the current entry, keeps its key, and keeps a given translation |
| Keywords.FillStepValue | factory/03-algo-basic/build-04-keywords.py:83-106 | that turn writes the entry-by-entry reference value, given that the earlier entries already hold theirs and the later ones are untouched |
| Keywords.Fill | factory/03-algo-basic/build-04-keywords.py:83-108 | after the first `n` turns of the loop, keys are unchanged, entries from `n` on are as given, and each earlier entry holds its value under the entry-by-entry reference definition |
| Keywords.AutoFill | factory/03-algo-basic/build-04-keywords.py:83-108 | the finished first loop gives every entry its reference value and keeps every key |
| Keywords.AutoFillEntry | factory/03-algo-basic/build-04-keywords.py:86-108 | a given translation is kept; an empty one ending in `s` or `m` whose stem is a key gets the stem's current translation plus `s` or nothing; any other empty one becomes the keyword itself |
| Keywords.Normalize | factory/03-algo-basic/build-04-keywords.py:82-116 | keys and their order are kept; every keyword joins `ALL_MACROS`; every translation is protected; given translations without a space are kept and those with one are protected |
| Keywords.NormalizeKeepsDistinct | factory/03-algo-basic/build-04-keywords.py:82-116 | a table with distinct keys still has distinct keys after `normalize` |
| Keywords.PluralBeforeEmptyStem | factory/03-algo-basic/build-04-keywords.py:86-106 | a plural with an empty translation placed before its stem, whose translation is also empty, gets just `s` |
| Keywords.PluralAfterStem | factory/03-algo-basic/build-04-keywords.py:86-106 | a plural with an empty translation placed after its stem gets the stem's filled translation plus `s` |
| Keywords.MacroDef | factory/03-algo-basic/build-04-keywords.py:119-129 | the command always starts with `\SetKw`: bare for `word`, `\SetKwIF` for `ifelif`, and otherwise followed by the kind in title case |
| Keywords.MacroDefIF | factory/03-algo-basic/build-04-keywords.py:119-129 | `\SetKwIF` comes from `ifelif` and from no other kind, because title case never gives `IF` |
| Keywords.MacroDefBare | factory/03-algo-basic/build-04-keywords.py:119-129 | the bare `\SetKw` comes exactly from `word` or an empty kind |
| Keywords.RawGather | factory/03-algo-basic/build-04-keywords.py:132-140 | one declaration per entry, in table order, each made of the command, the keyword, the translation and the suffix |
| Keywords.KwLineRoundTrip | factory/03-algo-basic/build-04-keywords.py:135-137 | a declaration reads back as its keyword and translation, provided the keyword holds no closing brace |
| Keywords.RawGatherRoundTrip | factory/03-algo-basic/build-04-keywords.py:132-140 | every line `rawgather` writes reads back as its own entry |
| Keywords.Texify | factory/03-algo-basic/build-04-keywords.py:143-187 | succeeds exactly for a list kind, or a control kind with all its keywords; a blank line and the `% Kind` comment come first; a list kind writes 2 lines plus one per entry, a control kind 3; a control kind gives its single declaration; an unknown kind gives the exit error; a failed control kind gives the `KeyError` of the first missing keyword it reads |
| Keywords.TexifyListLines | factory/03-algo-basic/build-04-keywords.py:153-162 | for a list kind, line `2 + i` declares entry `i` with the kind's command and suffix (`{}` for `block`, `{:}{}` for `for`) |
| Keywords.BlockStep | factory/03-algo-basic/build-04-keywords.py:201-206 | one turn of the loop succeeds exactly when `texify` accepts the block, and then adds the block's keys to `ALL_MACROS` and to the language's translations; which lines and which translations is stated by `BlockStepLines` and `BlockStepStores` |
| Keywords.BlockStepLines | factory/03-algo-basic/build-04-keywords.py:201-206 | one turn writes exactly the lines `texify` gives for the normalized table, and fails with exactly its error |
| Keywords.BlockStepTrans | factory/03-algo-basic/build-04-keywords.py:201-206 | one turn leaves the language's translations as the old ones updated with the normalized table |
| Keywords.BlockStepStores | factory/03-algo-basic/build-04-keywords.py:201-206 | after one turn, keys not in the block keep their translation and each key of the block holds its normalized translation |
| Keywords.AllAcceptedEach | factory/03-algo-basic/build-04-keywords.py:195-206 | the loop accepts the list of blocks exactly when `texify` accepts each block |
| Keywords.BuildTexTrans | factory/03-algo-basic/build-04-keywords.py:190-208 | `build_tex_trans` succeeds exactly when every block is accepted, and its line count is the sum of the per-block counts; the lines and translations themselves are stated by `BuildTexTransLines` and `BuildTexTransStores` |
| Keywords.BuildTexTransLines | factory/03-algo-basic/build-04-keywords.py:190-208 | the lines are the `texify` output of each normalized block, concatenated in block order; a failure is the error of the first block `texify` rejects |
| Keywords.BuildTexTransMacros | factory/03-algo-basic/build-04-keywords.py:190-208 | `ALL_MACROS` ends up as the old set plus every keyword of every block |
| Keywords.BuildTexTransTranslations | factory/03-algo-basic/build-04-keywords.py:190-208 | the language's entry of `ALL_TRANS` ends up with the old keys plus every keyword of every block |
| Keywords.BuildTexTransStores | factory/03-algo-basic/build-04-keywords.py:190-208 | every translation recorded equals the one obtained by updating the old translations with each normalized block in turn |
| Keywords.BuildTexTransValue | factory/03-algo-basic/build-04-keywords.py:190-208 | a keyword takes its normalized translation from the last block that defines it |
| Keywords.BuildTexTransKeeps | factory/03-algo-basic/build-04-keywords.py:190-208 | a keyword that no block defines keeps its old translation |
| LangStyle.IndentBody | factory/03-algo-basic/build-04-keywords.py:223-226 | the first line is dropped; comment lines are kept as they are; every other line gets four spaces in front |
| LangStyle.IndentBodyRoundTrip | factory/03-algo-basic/build-04-keywords.py:223-226 | removing the indentation gives back every line except the first |
| LangStyle.LangSectionLines | factory/03-algo-basic/build-04-keywords.py:221-227 | the joined section splits back into exactly the indented lines, one fewer than were generated, when no line holds a newline |
| LangStyle.MapLookups | factory/03-algo-basic/build-04-keywords.py:251-255 | reading the translations of a control and its extras succeeds exactly when all are present and returns them in order; a failure is the `KeyError` of the first absent one |
| LangStyle.MapLookupsAppend | factory/03-algo-basic/build-04-keywords.py:251-255 | reading two key lists one after the other succeeds exactly when both do, and fails with the first list's error if it fails, else with the second's |
| LangStyle.PrefixMacros | factory/03-algo-basic/build-04-keywords.py:239-272 | one macro per control, in order, built from that control's translations; fails exactly when some control cannot be read |
| LangStyle.PrefixMacrosReads | factory/03-algo-basic/build-04-keywords.py:239-255 | a pass over the controls succeeds or fails exactly as reading all their keys in loop order does, with the same error |
| LangStyle.PrefixMacrosError | factory/03-algo-basic/build-04-keywords.py:251-255 | a failed pass reports the `KeyError` of the first control that cannot be read, and every control before it can be read |
| LangStyle.ControlsUseTextKeys | factory/03-algo-basic/build-04-keywords.py:239-255 | every keyword that a control or one of its extras reads is one of the eight: `If`, `Else`, `For`, `While`, `Repeat`, `Until`, `Switch`, `Case` |
| LangStyle.ReadsOfControls | factory/03-algo-basic/build-04-keywords.py:239-255 | the controls read exactly the eight keywords, in the order `If`, `Else`, `For`, `While`, `Repeat`, `Until`, `Switch`, `Case` |
| LangStyle.ControlsReadTextKeys | factory/03-algo-basic/build-04-keywords.py:239-255 | all five controls can be read exactly when all eight keywords are present |
| LangStyle.BuildTextMacros | factory/03-algo-basic/build-04-keywords.py:237-272 | ten macros when all eight keywords are present, and otherwise the `KeyError` of the first missing one in reading order; the documentation records the macro names for English only |
| LangStyle.BuildTextMacrosPasses | factory/03-algo-basic/build-04-keywords.py:263-272 | the ten macros are the five `TT` macros followed by the five `AL` macros |
| LangStyle.ControlTextReference | factory/03-algo-basic/build-04-keywords.py:251-261 | a control's text is `If` and `Else` joined by a dash, `Repeat` then `Until` or `Switch` then `Case` joined by a space, and `For` or `While` alone |
| LangStyle.ControlName | factory/03-algo-basic/build-04-keywords.py:246 | the macro names are the prefix followed by the lower-cased control: `TTif` to `ALswitch` |
| LangStyle.BuildTextMacrosTT | factory/03-algo-basic/build-04-keywords.py:263-272 | macro `i` is the `TT` macro of control `i`: its text upper-cased in typewriter type |
| LangStyle.BuildTextMacrosAL | factory/03-algo-basic/build-04-keywords.py:263-272 | macro `i + 5` is the `AL` macro of control `i`: the same text unchanged, in bold |
| LangStyle.TextBlockIndentsEachLine | factory/03-algo-basic/build-04-keywords.py:274 | joining with a newline plus four spaces after a leading indent puts each macro on its own line, indented by four spaces |
| DocExamples.NoPlural | factory/03-algo-basic/build-04-keywords.py:431-436 | the first macro is kept; every kept macro comes from the input; no kept macro starts with the one kept before it; the last input macro extends the last kept one; the full keep-or-drop rule is stated by `NoPluralKeepsAt` and `KeepsAtUnique` |
| DocExamples.KeptIndicesKeepsAt | factory/03-algo-basic/build-04-keywords.py:431-436 | the kept positions start at 0 and increase; no kept macro starts with the previously kept one; every skipped macro starts with the last macro kept before it |
| DocExamples.KeepsAtUnique | factory/03-algo-basic/build-04-keywords.py:431-436 | only one list of positions has those three properties, so they determine what the filter keeps |
| DocExamples.NoPluralKeepsAt | factory/03-algo-basic/build-04-keywords.py:431-436 | the filter returns exactly the macros at those positions, in order |
| DocExamples.NoPluralKeeps | factory/03-algo-basic/build-04-keywords.py:431-436 | a list in which no macro starts with its predecessor goes through the filter unchanged |
| DocExamples.NoPluralIdempotent | factory/03-algo-basic/build-04-keywords.py:431-436 | filtering twice is the same as filtering once |
| DocExamples.Pairs | factory/03-algo-basic/build-04-keywords.py:438-439 | pairing succeeds exactly for an even count, matching element `2i` with element `2i + 1`; an odd count fails reading one past the end, at the index equal to the count, which the error carries |
| DocExamples.PairsRoundTrip | factory/03-algo-basic/build-04-keywords.py:438-439 | flattening the pairs gives back the filtered list |

## Left out

- Reading the `.peuf` configuration files, walking the language directories, and writing the `.sty`, `.tex` and documentation files: this is I/O. The blocks of one language are a parameter of `Keywords.BuildTexTrans`.
- The `orpyste` and `mistool` libraries: they are not part of this model. Their parsed output appears as the kind/table blocks.
- The regular-expression scan of the generated style file (lines 403-416) and the rest of the French documentation generator: only the filter and pairing at lines 431-439 are modelled.
- Copying the generated `.sty` files into `lyalgo/keywords` (lines 301-307): file handling only.
- The loops over languages at lines 221 and 237: each is modelled for one language. `ALL_TRANS` is passed in and returned as a map.
- Text.Title: only ASCII letters are cased. Python's `title`, `upper` and `lower` also case other Unicode letters, such as the accented letters in French translations.
- Text.Upper: ASCII only, for the same reason.
- Text.Lower: ASCII only, for the same reason.
- Keywords.Normalize: requires that an empty translation belongs to a non-empty keyword. For an empty keyword with an empty translation, Python's `word[-1]` raises `IndexError`; that crash is not modelled.
- Keywords.BlockStep: its own contract gives the line count and the key sets. The lines and the stored translations are stated by `Keywords.BlockStepLines` and `Keywords.BlockStepStores`.
- Keywords.BuildTexTrans: its own contract gives the line count. The lines and the stored translations are stated by `Keywords.BuildTexTransLines`, `Keywords.BuildTexTransStores` and `Keywords.BuildTexTransValue`.
- LangStyle.LangSectionLines: requires at least two generated lines, and no newline in any of them. With a single line the section is empty and splits into one empty line, as `Text.SplitJoinNoLines` states, not into zero lines. The script's output meets the no-newline condition whenever the configuration does, but that is not derived here.
- DocExamples.NoPlural: its own contract does not pin the result down; which macros are kept, in order, is stated by `DocExamples.NoPluralKeepsAt` and `DocExamples.KeepsAtUnique`. The LaTeX template each pair is formatted into is not modelled.
