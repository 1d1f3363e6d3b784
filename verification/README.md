# Prompt dialogs from printer action comments

This project models how the touchscreen front end of a 3D printer builds
interactive dialogs out of console output. Printer macros print lines such as

    // action:prompt_begin Filament runout
    // action:prompt_text Load new filament and press Continue
    // action:prompt_footer_button Continue|RESUME|primary
    // action:prompt_show

The front end receives each line as the parameter of a `notify_gcode_response`
notification. `MainPanel::handle_macro_response` recognises the
`// action:` marker and dispatches on the sub-command:

- `prompt_begin` empties the prompt record through `pdata_clean` and then sets
  the header.
- `prompt_text` replaces the text.
- `prompt_footer_button` splits `label|command|style` and appends a button.
- `prompt_show` opens a message box with a button-activation callback.
- `prompt_end` empties the record.

The callback sends the pressed button's stored command back to the printer.

The model is pure and covers these pieces:

- `CppString`: the parts of `std::string` the handler relies on, with their
  C++ semantics. A character of a Dafny string stands for one byte.
  - `find` answers an index or `npos`.
  - `substr` throws `std::out_of_range` when its start lies past the end, and
    otherwise clips the count.
  - Storing a `size_t` into an `int` truncates to 32 bits, so `npos` becomes
    -1.
  - An `int` handed back to a `size_t` parameter wraps modulo 2^64.
  - Strings are stored with `calloc` and `memcpy` and read back as C strings,
    so a stored value ends at its first NUL character.
- `PromptRecord`: the prompt record (`prompt_data`) and its buttons
  (`prompt_button`).
- `ActionComment`: the chain of `find(...) == 0` tests that selects a branch.
- `FooterButton`: the field split of `prompt_footer_button` and the mapping
  from style to button type.
- `Accumulator`:
  - `Step(record, line)` is one call of the handler. Its `Outcome` is either
    the next record, together with whether the dialog was asked for, or the
    escaping `out_of_range` together with the record as the exception left it.
  - `Run` folds `Step` over a stream of lines.
  - `Dispatch` looks up the command of a pressed button.
- `PromptScript`: the lines a macro prints for a dialog, and the proof that a
  well-formed begin / text / buttons / show sequence rebuilds exactly the
  dialog it describes.

## Quirks of the handler

The model follows the code in every case below.

- The handler keeps no state besides the prompt record.
  - Buttons and text are accepted at any time.
  - `prompt_show` does not change the record.
  - Only `prompt_begin` and `prompt_end` empty it.
- Style to type:
  - `std::string::compare` answers 0 on equality, and each test in the chain
    fires on inequality.
  - So exactly the style `primary` gives type 1, and every other style gives
    type 0.
  - Types 2 to 4 are never produced.
  - The style is matched case-sensitively, and the default style is `none`.
- The offsets are fixed:
  - the header starts at offset 13;
  - the text starts at offset 12;
  - the label starts at offset 21.
  
  Each assumes exactly one separator character after the keyword. A bare
  keyword makes `substr` throw. For `prompt_begin`, the throw comes after the
  record has already been emptied.
- A button payload without any `|`:
  - the label is everything after offset 21;
  - the command is `substr(0)`, the whole text after the marker, keyword
    included;
  - the style is `none`.
- A line `prompt_footer_button|x`, with `|` as the separator character:
  - the first search finds nothing;
  - the second search, from index 0, finds that separator;
  - the button gets the label `x`, the command `prompt_footer_button` and the
    style `x`.
- The activation callback does not check the pressed index against
  `button_size`. `Dispatch` therefore requires the index to be in range.
- Stored strings are cut at the first NUL character.

## Model

| member | source | states |
|---|---|---|
| CppString.ToInt | src/main_panel.cpp:354-355 | storing a `find` answer into `int` keeps every value below 2^31 and turns `npos` into -1 |
| CppString.ToSize | src/main_panel.cpp:357-364 | an `int` argument of `substr` is read modulo 2^64: non-negative values unchanged, negative values wrap to 2^64 + n |
| CppString.Find | src/main_panel.cpp:354-355 | `find(p, from)` answers the first occurrence at or after `from`, and `npos` exactly when there is none |
| CppString.Substr | src/main_panel.cpp:337-364 | `substr(pos, count)` throws exactly when `pos` lies past the end; otherwise it is exactly the `count` characters from `pos` when that many remain, and the whole rest for `npos` or a longer count |
| CppString.CString | src/main_panel.cpp:343-373 | reading back a `calloc`+`memcpy` copy gives the longest NUL-free prefix of the stored string |
| CppString.CStringOfPlain | src/main_panel.cpp:343-373 | a NUL-free string is stored and read back unchanged |
| CppString.CStringKeepsFirst | src/main_panel.cpp:370-373 | a string whose first character is not NUL reads back non-empty |
| CppString.FindZeroIsPrefix | src/main_panel.cpp:335-402 | the handler's `find(k) == 0` test holds exactly when `k` is a prefix |
| CppString.FindAsInt | src/main_panel.cpp:354-355 | for strings shorter than 2^31, a `find` answer stored into `int` is the index itself, or -1 for `npos` |
| ActionComment.KeywordsExclusive | src/main_panel.cpp:339-402 | at most one of the five keywords starts a command, so the order of the `else if` chain does not matter |
| ActionComment.Classify | src/main_panel.cpp:335-339 | a line is an action comment exactly when it starts with `// action:`, and each branch sees the text after the 10-character marker |
| ActionComment.ClassifyCases | src/main_panel.cpp:335-407 | each branch is taken exactly when its keyword starts the text after the marker, and the unsupported branch exactly when none does |
| FooterButton.SplitFields | src/main_panel.cpp:353-365 | for commands shorter than 2^31 the split throws exactly when the command is shorter than 21 characters, and the label is always a prefix of the text from offset 21 |
| FooterButton.SplitAtTwoBars | src/main_panel.cpp:354-362 | with bars found at `i` and then `j`, the label, command and style are the three pieces between them |
| FooterButton.SplitAtOneBar | src/main_panel.cpp:354-364 | with one bar at `i` and none after it, the command runs to the end and the style is `none` |
| FooterButton.SplitAtNoBar | src/main_panel.cpp:354-364 | with no bar anywhere, the label is the text from offset 21 and the command is the whole text |
| FooterButton.SplitAtEarlyBar | src/main_panel.cpp:354-362 | with no bar from offset 21 on but one before it, the second search from index 0 finds that one and splits there |
| FooterButton.SplitThree | src/main_panel.cpp:353-362 | a label, a command and a style joined by bars, after the keyword and one separator, split into exactly those three fields |
| FooterButton.SplitTwo | src/main_panel.cpp:353-364 | a label and a command joined by one bar split into those two fields, with style `none` |
| FooterButton.SplitNoBar | src/main_panel.cpp:353-364 | a bar-free payload gives the label, and the whole text (keyword included) as command |
| FooterButton.SplitBarSeparator | src/main_panel.cpp:353-362 | the keyword followed by a bar and `x` gives label `x`, command `prompt_footer_button` and style `x` |
| FooterButton.SplitKeywordOnly | src/main_panel.cpp:353-357 | the bare keyword makes `substr(21, ...)` throw |
| FooterButton.FindBarAt | src/main_panel.cpp:354-355 | a search for a bar from `from` answers the first bar at or after `from` |
| FooterButton.FindNoBar | src/main_panel.cpp:354-355 | with no bar at or after `from`, the search answers `npos` |
| FooterButton.StyleType | src/main_panel.cpp:374-386 | the type is 1 exactly for the style `primary` and 0 for every other style |
| FooterButton.DefaultStyleType | src/main_panel.cpp:359-375 | the default style `none` gives type 0 |
| FooterButton.StyleTypeInverted | src/main_panel.cpp:374-386 | the chain as written agrees with the mapping its branch order spells out (primary 0 ... error 4) exactly on styles naming none of the five types |
| Accumulator.NewButton | src/main_panel.cpp:367-386 | a new button holds NUL-free label and command and a type of 0 or 1, and the type is 1 exactly when the style is `primary` |
| Accumulator.Apply | src/main_panel.cpp:339-407 | only `prompt_show` asks for the dialog and changes nothing; `prompt_begin` clears the text and buttons and sets a NUL-free header; `prompt_text` sets a NUL-free text and nothing else; `prompt_footer_button` appends exactly one button behind the old ones; `prompt_end` leaves the empty record; unknown actions change nothing; a throw comes only from begin (record already emptied), text or footer-button (record unchanged) |
| Accumulator.Run | src/main_panel.cpp:325-411 | an empty stream changes nothing, and a stream whose outcome asks for the dialog ends with a `prompt_show` line |
| Accumulator.Step | src/main_panel.cpp:325-411 | a line without the marker changes nothing, and a line that shows the dialog is a `prompt_show` line and leaves the record as it was |
| Accumulator.Dispatch | src/main_panel.cpp:392-400 | the pressed button's command is sent, and in a valid record it holds no NUL |
| Accumulator.StepBegin | src/main_panel.cpp:314-346 | `prompt_begin` leaves only the header, set to the text after offset 13; the bare keyword throws with the record already emptied |
| Accumulator.BeginPreempts | src/main_panel.cpp:314-346 | the outcome of `prompt_begin` does not depend on the record before it, and it leaves no buttons and no text |
| Accumulator.StepText | src/main_panel.cpp:347-352 | `prompt_text` changes only the text, to the text after offset 12; the bare keyword throws and changes nothing |
| Accumulator.TextLastWins | src/main_panel.cpp:347-352 | of two `prompt_text` lines in a row, only the second one counts |
| Accumulator.StepFooter | src/main_panel.cpp:353-386 | `prompt_footer_button` appends exactly one button, built from the split fields, and changes nothing else; the bare keyword throws and changes nothing |
| Accumulator.StepFooterFields | src/main_panel.cpp:353-373 | a footer command whose split is known appends the button made of those fields |
| Accumulator.StepButtonThree | src/main_panel.cpp:353-386 | label, command and style joined by bars append the button with that label, that command and the style's type |
| Accumulator.StepButtonTwo | src/main_panel.cpp:353-386 | label and command joined by one bar append a button of type 0 |
| Accumulator.StepButtonNoBar | src/main_panel.cpp:353-386 | a payload without a bar appends a button whose command is the whole action text, which is never empty |
| Accumulator.StepEnd | src/main_panel.cpp:402-404 | `prompt_end` empties the record whatever it held |
| Accumulator.StepShow | src/main_panel.cpp:388-401 | `prompt_show` asks for the dialog and changes nothing |
| Accumulator.StepUnsupported | src/main_panel.cpp:405-407 | an action comment with no prompt keyword changes nothing |
| Accumulator.DispatchStable | src/main_panel.cpp:367-400 | a step that neither throws nor clears keeps every existing button at its index, so a pending activation finds the same command |
| Accumulator.StepButtonsGrowOrClear | src/main_panel.cpp:314-406 | a step clears all buttons, keeps them, or appends one behind the old ones; it never reorders or rewrites a single button |
| Accumulator.StepKeepsValid | src/main_panel.cpp:339-406 | every step keeps stored strings NUL-free and button types within 0 and 1 |
| Accumulator.RunKeepsValid | src/main_panel.cpp:339-406 | from any valid record, such as the initial one, any stream of lines keeps the record valid |
| Accumulator.RunIgnoresOrdinaryLines | src/main_panel.cpp:335 | ordinary console output without the marker leaves the record alone |
| Accumulator.RunFirst | src/main_panel.cpp:66 | the first of several lines is handled first, and the rest go on from its record |
| Accumulator.RunCons | src/main_panel.cpp:66 | a non-throwing line in front of more lines hands its record to them |
| Accumulator.RunAppend | src/main_panel.cpp:66 | two streams in a row behave like the second run from where the first ended |
| PromptScript.StepButtonLine | src/main_panel.cpp:353-386 | a button written as its label, command and style name joined by bars is appended exactly as written |
| PromptScript.ButtonLineAppends | src/main_panel.cpp:353-386 | such a line is a footer-button action whose fields rebuild that very button |
| PromptScript.RunButtonLines | src/main_panel.cpp:367-373 | a sequence of button lines appends its buttons in arrival order |
| PromptScript.StepBeginLine | src/main_panel.cpp:339-346 | a begin line leaves exactly the header it carries |
| PromptScript.StepTextLine | src/main_panel.cpp:347-352 | a text line sets exactly the text it carries |
| PromptScript.ScriptShowsDialog | src/main_panel.cpp:339-401 | begin / text / buttons / show, from any record, shows the dialog with exactly that header, text and button list |
| PromptScript.DispatchAfterScript | src/main_panel.cpp:392-400 | pressing button `i` of that dialog sends the command the `i`-th button line declared |
| PromptScript.ScriptThenEnd | src/main_panel.cpp:402-404 | an end line after a shown dialog empties the record |
| PromptScript.ReachableKinds | src/main_panel.cpp:374-386 | every button reachable from the initial record has type 0 or 1 |
| PromptScript.ExampleCancel | src/main_panel.cpp:353-386 | the payload `Cancel`, bar, `CANCEL_MACRO` appends label `Cancel`, command `CANCEL_MACRO`, type 0 |
| PromptScript.ExampleWarning | src/main_panel.cpp:374-386 | the payload `Continue`, bar, `RESUME`, bar, `warning` gets type 0, not 3 |
| PromptScript.ExampleOnlyLabel | src/main_panel.cpp:353-364 | `OnlyLabel` gets the whole action text as its command |

## Left out

- The message box is not modelled: `MainPanel::prompt` (lines 413-437) and the LVGL calls in the show branch are left out. This covers the static `btns` array, which is sized only on the first call. It also covers the division by `button_size`, which fails for a dialog without buttons. The model reduces showing to the `shows` flag of `Step`.
- JSON extraction of the line is left out: the `/params/0` lookup and the null check at lines 327-331 belong to the transport. `Step` receives the line itself.
- Logging, the `lv_lock` mutex and concurrency are left out: `spdlog` has no effect on the record, and each notification is modelled as one atomic step.
- Memory management is left out: `calloc`, `realloc` and `free` are modelled only by their effect, namely that stored strings are C strings.
- Sending the command is left out: `ws.gcode_script` is not modelled. `Dispatch` returns the command that would be sent. Closing the message box is left out.
- The pressed index is not converted from `uint32_t`: `lv_msgbox_get_active_btn` returns it, and its "no button" value is outside the model. `Dispatch` takes any index smaller than the number of buttons.
- What happens after an exception escapes is not modelled: the caller of the handler is not part of this model. `Run` stops at the first line that throws.
- Characters are not bytes: a Dafny string is a sequence of Unicode characters, while `std::string` offsets and the fixed offsets 10, 12, 13 and 21 count UTF-8 bytes. The model agrees with the source when every character of a line is ASCII, and in particular when the character after each keyword is. A multi-byte character after a keyword would be cut in half by the source, and the model does not show that.
- CppString.FindAsInt: stated only for strings shorter than 2^31 characters. Longer strings make the `int` conversion of an index wrap, which the model leaves unexplored.
- FooterButton.SplitFields: stated only for commands shorter than 2^31 characters, for the same reason. The lemmas that build on it (`StepFooter`, `SplitThree` and the others) carry the same bound.
- PromptScript.ScriptShowsDialog: shown only for buttons whose label and command hold no `|` and no NUL, whose type is 0 or 1, and whose fields stay far below 2^31 characters. Other buttons cannot be written as a single line, or cannot be read back unchanged.
