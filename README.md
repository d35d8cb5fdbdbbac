# RStudio desktop relaunch and emoji symbol provider, in Dafny

This project models two small pieces of RStudio:

- **Relaunching the desktop application** (`launch.dfy`, module `PosixLaunch`).
  `ApplicationLaunch` takes a snapshot of the process environment when it is
  constructed. `launchRStudio` then:
  1. copies its arguments into a Qt argument list;
  2. saves `LD_LIBRARY_PATH`;
  3. overwrites it with the value from the launch-time snapshot;
  4. sets `kRStudioInitialWorkingDir`;
  5. starts the executable detached;
  6. writes the saved `LD_LIBRARY_PATH` back and unsets `kRStudioInitialWorkingDir`.

  The process environment is an `Environment` object holding a
  `map<string, string>`, which `getenv`/`setenv`/`unsetenv` read and update in
  place. The launcher is a class with the `launchEnv_` and `pMainWindow_`
  fields. Each detached start is recorded as a `Spawn` value holding the
  program, the arguments and the environment at that moment. Two pure
  functions, `EnvAtSpawn` and `EnvAfterRelaunch`, describe the environment the
  child gets and the environment left behind. The method `LaunchRStudio` is
  proved against them.
- **The emoji symbol provider of the visual editor's insert-symbol dialog**
  (`emoji.dfy`, module `EmojiSymbols`). It covers:
  - how an emoji becomes a symbol character (`symbolForEmoji`);
  - the symbol list per group (`getSymbols`) and the group names
    (`symbolGroupNames`);
  - text filtering (`filterSymbols`);
  - the choice of the alias stored as the emoji hint (`insertSymbolTransaction`).

  All of these are pure functions over the emoji database, which is passed in
  as a sequence of `Emoji` records. JavaScript's `string | undefined` is
  `Option<string>`. `String.prototype.includes` and `Array.prototype.find` are
  written out (`Includes`, `FindIndexFrom`, `Find`), and so is JavaScript
  truthiness (`Truthy`).

Some behaviour is reproduced exactly as the code has it:

- An `LD_LIBRARY_PATH` that was unset before a relaunch is set to `""`
  afterwards, because the saved value is a `std::string` from `getenv`.
- A `kRStudioInitialWorkingDir` that existed before a relaunch is removed
  afterwards, not restored.

So the environment comes back unchanged only when `LD_LIBRARY_PATH` was set and
the working-directory variable was not (`RelaunchRestoresExactlyIff`), although
the code's own comment at DesktopPosixApplicationLaunch.cpp:205 calls these
steps a restore.

On the emoji side:

- In `filterSymbols`, the alias test (line 103) passes only when `find` returns
  a *truthy* alias. An alias `""` is falsy, but it only matches an empty filter
  text, and every name includes that, so the name test (line 98) keeps the
  symbol anyway. So the kept symbols are exactly those whose name or some alias
  includes the text (`Keep`).
- `aliases[0]` of an empty alias list is `undefined`, so the display name of
  such a markdown emoji is `":undefined:"` and its hint is `undefined`.
- A category literally named `"All"` selects every emoji, because
  `getSymbols` tests for `kCategoryAll` first.

The value of `kRStudioInitialWorkingDir` is defined in a header that is not
part of this model. It is modelled as `"RS_INITIAL_WD"`. Only the fact that it
differs from `LD_LIBRARY_PATH` matters to the proofs.

## Model

| member | source | states |
|---|---|---|
| PosixLaunch.Getenv | src/cpp/desktop/DesktopPosixApplicationLaunch.cpp:195-197 | an unset name reads as `""`, a set one as its value, so an unset variable and one set to `""` read the same (both for `getenv` and for `launchEnv_.value`) |
| PosixLaunch.ToArgList | src/cpp/desktop/DesktopPosixApplicationLaunch.cpp:185-189 | the argument list holds exactly the strings of `args`: same count, same order |
| PosixLaunch.EnvAtSpawn | src/cpp/desktop/DesktopPosixApplicationLaunch.cpp:194-203 | at the detached start, `LD_LIBRARY_PATH` is the launch-time snapshot's value (`""` if the snapshot lacks it), `kRStudioInitialWorkingDir` is `initialDir`, and every other variable is as before |
| PosixLaunch.EnvAfterRelaunch | src/cpp/desktop/DesktopPosixApplicationLaunch.cpp:195-207 | after return, `LD_LIBRARY_PATH` is what `getenv` read on entry (`""` if it was unset), `kRStudioInitialWorkingDir` is absent whatever it held before, and every other variable is unchanged |
| PosixLaunch.RestoreUndoesOverrides | src/cpp/desktop/DesktopPosixApplicationLaunch.cpp:194-207 | the two restore steps applied to the spawn-time environment give `EnvAfterRelaunch` of the entry environment, whatever the snapshot or `initialDir` |
| PosixLaunch.RelaunchRestoresExactlyIff | src/cpp/desktop/DesktopPosixApplicationLaunch.cpp:205-207 | the relaunch leaves the environment identical iff `LD_LIBRARY_PATH` was set and `kRStudioInitialWorkingDir` was not |
| PosixLaunch.RelaunchDoesNotAffectNextSpawn | src/cpp/desktop/DesktopPosixApplicationLaunch.cpp:194-207 | a relaunch does not change the environment that a later relaunch gives its child |
| PosixLaunch.Environment.Get | src/cpp/desktop/DesktopPosixApplicationLaunch.cpp:195 | `getenv` returns the variable's value, or `""` when it is unset |
| PosixLaunch.Environment.Set | src/cpp/desktop/DesktopPosixApplicationLaunch.cpp:196-197 | `setenv` maps the name to the value and changes nothing else |
| PosixLaunch.Environment.Unset | src/cpp/desktop/DesktopPosixApplicationLaunch.cpp:207 | `unsetenv` removes the name and changes nothing else |
| PosixLaunch.ApplicationLaunch.constructor | src/cpp/desktop/DesktopPosixApplicationLaunch.cpp:118-126 | `launchEnv_` is a snapshot of the environment at construction, no main window is set, and nothing has been spawned |
| PosixLaunch.ApplicationLaunch.SetActivationWindow | src/cpp/desktop/DesktopPosixApplicationLaunch.cpp:153-157 | afterwards `pMainWindow_` is the given window |
| PosixLaunch.ApplicationLaunch.LaunchRStudio | src/cpp/desktop/DesktopPosixApplicationLaunch.cpp:182-208 | exactly one detached start is recorded, with the executable, `args` and `EnvAtSpawn` of the entry environment; the environment afterwards is `EnvAfterRelaunch` of the entry environment; `launchEnv_` and the main window are unchanged |
| EmojiSymbols.Includes | src/gwt/panmirror/src/editor/src/behaviors/insert_symbol/insert_symbol-plugin-emoji.tsx:98 | `s.includes(sub)`: every string includes `""`, and a string never includes a longer one |
| EmojiSymbols.IncludesIff | src/gwt/panmirror/src/editor/src/behaviors/insert_symbol/insert_symbol-plugin-emoji.tsx:98 | `s.includes(sub)` holds iff `sub` occurs in `s` at some index |
| EmojiSymbols.FindIndexFrom | src/gwt/panmirror/src/editor/src/behaviors/insert_symbol/insert_symbol-plugin-emoji.tsx:103 | `find` stops at the first alias that includes the text; no earlier alias includes it; when there is no result, no alias includes it |
| EmojiSymbols.Find | src/gwt/panmirror/src/editor/src/behaviors/insert_symbol/insert_symbol-plugin-emoji.tsx:103 | `aliases.find(alias => alias.includes(text))` is defined iff some alias includes the text, and is then the first such alias |
| EmojiSymbols.Keep | src/gwt/panmirror/src/editor/src/behaviors/insert_symbol/insert_symbol-plugin-emoji.tsx:96-107 | the filter callback passes a symbol iff its name or at least one of its aliases includes the text; a symbol without aliases passes only by its name |
| EmojiSymbols.FilterSymbols | src/gwt/panmirror/src/editor/src/behaviors/insert_symbol/insert_symbol-plugin-emoji.tsx:95-110 | the result is a subsequence of the input (same relative order), and a symbol is in it iff it is in the input and passes the filter |
| EmojiSymbols.FilterKeepsAllPassing | src/gwt/panmirror/src/editor/src/behaviors/insert_symbol/insert_symbol-plugin-emoji.tsx:95-109 | a list whose every symbol passes the filter comes back unchanged |
| EmojiSymbols.FilterIdempotent | src/gwt/panmirror/src/editor/src/behaviors/insert_symbol/insert_symbol-plugin-emoji.tsx:95-109 | filtering the filtered list again with the same text returns it unchanged |
| EmojiSymbols.FilterEmptyTextKeepsAll | src/gwt/panmirror/src/editor/src/behaviors/insert_symbol/insert_symbol-plugin-emoji.tsx:95-109 | an empty filter text keeps every symbol, in order |
| EmojiSymbols.FilterConcat | src/gwt/panmirror/src/editor/src/behaviors/insert_symbol/insert_symbol-plugin-emoji.tsx:96-108 | filtering decides symbol by symbol: it distributes over concatenation |
| EmojiSymbols.SymbolForEmoji | src/gwt/panmirror/src/editor/src/behaviors/insert_symbol/insert_symbol-plugin-emoji.tsx:118-125 | `value` is the glyph; `aliases` and `description` pass through; `name` is `:aliases[0]:` with a markdown form (`:undefined:` without aliases) and the glyph otherwise |
| EmojiSymbols.SymbolFoundByAliasOrGlyph | src/gwt/panmirror/src/editor/src/behaviors/insert_symbol/insert_symbol-plugin-emoji.tsx:96-106 | an emoji's symbol passes the filter for any text one of its aliases includes, and, without a markdown form, for any text its glyph includes |
| EmojiSymbols.EmojiHint | src/gwt/panmirror/src/editor/src/behaviors/insert_symbol/insert_symbol-plugin-emoji.tsx:68-69 | the hint is undefined only when there are no aliases; otherwise it is one of the aliases; it is the first alias including the search term when that alias is not `""`; it is `aliases[0]` when no alias includes the term |
| EmojiSymbols.EmojiHintMatchesTerm | src/gwt/panmirror/src/editor/src/behaviors/insert_symbol/insert_symbol-plugin-emoji.tsx:68-69 | for a search term that some alias includes, the hint is defined and includes the term |
| EmojiSymbols.EmojiHintEmptyTerm | src/gwt/panmirror/src/editor/src/behaviors/insert_symbol/insert_symbol-plugin-emoji.tsx:68-69 | an empty search term gives `aliases[0]` |
| EmojiSymbols.InCategory | src/gwt/panmirror/src/editor/src/behaviors/insert_symbol/insert_symbol-plugin-emoji.tsx:89-90 | the emojis of one category: a subsequence of the database; an emoji is in it iff it is in the database with that category, and as many times as the database holds it |
| EmojiSymbols.InCategoryConcat | src/gwt/panmirror/src/editor/src/behaviors/insert_symbol/insert_symbol-plugin-emoji.tsx:89-90 | category selection decides emoji by emoji: it distributes over concatenation |
| EmojiSymbols.SymbolsFor | src/gwt/panmirror/src/editor/src/behaviors/insert_symbol/insert_symbol-plugin-emoji.tsx:86-87 | one symbol per emoji, at the emoji's position |
| EmojiSymbols.GetSymbols | src/gwt/panmirror/src/editor/src/behaviors/insert_symbol/insert_symbol-plugin-emoji.tsx:84-93 | `"All"` or `undefined` gives one symbol per emoji in database order; any other name gives, position by position, the symbols of that category's emojis (every occurrence kept, in database order) |
| EmojiSymbols.SymbolsForSubsequence | src/gwt/panmirror/src/editor/src/behaviors/insert_symbol/insert_symbol-plugin-emoji.tsx:89-91 | mapping `symbolForEmoji` over a subsequence gives a subsequence of the mapped list |
| EmojiSymbols.GroupIsSubsequenceOfAll | src/gwt/panmirror/src/editor/src/behaviors/insert_symbol/insert_symbol-plugin-emoji.tsx:84-93 | the symbols of any group appear among all symbols, in the same order |
| EmojiSymbols.SymbolGroupNames | src/gwt/panmirror/src/editor/src/behaviors/insert_symbol/insert_symbol-plugin-emoji.tsx:80-82 | `"All"` followed by the categories in order: one more name than there are categories |
| EmojiSymbols.CategoryGroupsPartitionAll | src/gwt/panmirror/src/editor/src/behaviors/insert_symbol/insert_symbol-plugin-emoji.tsx:80-93 | when `"All"` is not itself a category and every emoji's category occurs exactly once among the categories, the groups after `"All"` list as many symbols in all as `"All"` does |

## Left out

- `attemptToRegisterPeer` (which calls `PosixApplication::isRunning`),
  `sendMessage`, `startupOpenFileRequest` and `activateWindow`
  (DesktopPosixApplicationLaunch.cpp:160-180) are left out. They forward to
  `PosixApplication`, whose single-instance detection and message passing are
  not part of this model.
- PosixLaunch.ApplicationLaunch.SetActivationWindow: the forwarding of the
  window to `PosixApplication::setActivationWindow` is not modelled, for the
  same reason.
- The Qt signal wiring, the `app()` cast and the `init` factory are left out.
  They are framework glue. So is `MacEventFilter`, a toolkit workaround for
  window resizing and key events.
- The spawn itself is not modelled. `QProcess::startDetached` becomes a
  recorded `Spawn` value, and its result is ignored as in the code.
- The executable path from `options().executablePath()` is a parameter.
- The conversion between `std::string` and `QString` is treated as the
  identity, because strings are `seq<char>` here.
- Concurrency is not modelled. The code takes no lock around the environment
  swap, so nothing serialises two relaunches.
- The model ignores that other threads could see the temporary environment.
- `FilePath.hpp` is left out. It only declares wrappers over OS calls.
- In `insertSymbolTransaction`, only the alias choice is modelled
  (`EmojiHint`). The ProseMirror transaction and mark construction are left
  out.
- `emojiFromString` is left out, because the emoji database is not part of
  this model. So is the plain-text branch that depends on it.
- The skin-tone preference and the plugin/extension factory are left out.
- The emoji database and the category list are inputs.
- JavaScript strings are sequences of UTF-16 code units, while `string` here is
  a sequence of Unicode scalar values. For well-formed strings, `includes`
  gives the same answer either way.
