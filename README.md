# jdidd serial terminal: a Dafny model of its byte and text pipeline

jdidd is a desktop serial terminal with two pages:

- **The terminal page** shows what arrives on a serial port. It answers incoming lines with user-defined auto-response rules, and it sends user-defined sequences in ASCII, HEX or Decimal notation.
- **The calibrator page** reads and writes named parameters of an embedded device. It does this through a small shell protocol (`cd /`, `cd <path>`, `get`/`set`, `cd /`).

This project models the logic between the serial link and the user's rules. It proves what that logic promises.

| file | module | models |
|---|---|---|
| `text.dfy` | `Text` | the Python `str` operations the code relies on: `strip`, `split()`, `splitlines`, `replace`, `lower` on ASCII, the `in` test on bytes |
| `utf8.dfy` | `Utf8` | UTF-8 encoding, and decoding with `errors="replace"` |
| `wrappers.dfy`, `store.dfy` | `Wrappers`, `Store` | `Option`/`Result`, `dict.get` with a default, the list a JSON load installs |
| `codec.dfy` | `Codec` | `int(token, base)`, the HEX/Decimal/ASCII send encoders, the HEX and Decimal display formatters |
| `normalise.dfy` | `Normalise` | the editors' HEX and Decimal clean-up, regrouping and validation |
| `lists.dfy` | `Lists` | index-checked replace and delete, and the row move (`pop` then `insert`) |
| `receive.dfy` | `ReceiveSequences` | the auto-response rules: trigger matching, first match, the rule list and its file |
| `send.dfy` | `SendSequences` | the list of send sequences and its file |
| `editor.dfy` | `SequenceEditor` | the send-sequence editor dialog |
| `editor2.dfy` | `RuleEditor` | the trigger/response rule editor dialog |
| `port.dfy` | `Port` | a scripted serial port with a logical clock, standing in for pyserial |
| `backend.dfy` | `Backend` | the calibrator's shell backend: module paths, line writing, drains, value extraction, GET/SET |
| `worker.dfy` | `Worker` | the background reader loop with its pause and stop flags |
| `app.dfy` | `App` | the main window: received-byte buffering and line framing, auto-responses, the FIFO send queue, view switching |
| `terminal.dfy` | `Terminal` | the terminal widget: SGR colour escapes, row moves, rule enable toggles |
| `calibrator.dfy` | `Calibrator` | JSON schema normalisation and the order in which configuration files are tried |
| `param_row.dfy` | `ParamRows` | one parameter row: choice ordering, access rights, GET selection, the empty-SET rule |
| `calibrator_page.dfy` | `CalibratorPage` | the calibrator page: loading, cards, modules, key ordering, row building |

Objects whose fields the program changes in place are classes. This covers the managers, the dialogs, the port, the backend, the worker, the main window, the terminal widget, the parameter row and the page. Their methods carry `modifies` clauses and state their whole new state. Pure logic is functions, and lemmas relate those functions.

The Qt timers become flags plus one method per timeout. Everything the window shows or sends is recorded, in order, in one output log (`App.SerialApp.out`). The terminal's rendering of colour escapes is recorded as a list of styled runs (`Terminal.TerminalWidget.display`). Files become a map from path to content.

Three facts about the code that are easy to get wrong:

- Only the view switches (`enter_calibrator_mode` / `enter_terminal_mode`) pause the reader. A GET or SET does not.
- An ASCII trigger is compared with the received line stripped at both ends, not only at its end.
- The configuration files are tried in this order:
  1. `mcu_database.json` in the working directory, then beside the program;
  2. `menzu_config.json` in the working directory, then beside the program.

  The docstring of `load_config_any` (`jdidd/calibrator_widget.py:50-56`) lists both working-directory files first. The model follows the code.

## Model

| member | source | states |
|---|---|---|
| Text.Strip | jdidd/receive_sequence_manager.py:35 | `str.strip()`: the result is no longer than its argument and neither starts nor ends with whitespace (the rest of its meaning is `Text.StripSpec`) |
| Text.StripSpec | jdidd/receive_sequence_manager.py:35 | the stripped text sits in the argument with only whitespace before and after it, so it is exactly the argument without its whitespace ends, and it is empty exactly when the argument is all whitespace |
| Text.StripKeepsInnerSpace | jdidd/receive_sequence_manager.py:35 | `strip` drops only the ends: `" a b\n"` becomes `"a b"`, inner space kept |
| Text.TrimsLeft | jdidd/receive_sequence_manager.py:35 | a leading whitespace character joins what `strip` drops on the left |
| Text.TrimsRight | jdidd/receive_sequence_manager.py:35 | a trailing whitespace character joins what `strip` drops on the right |
| Text.LStrip | jdidd/serial_backend.py:139 | the result is a suffix of the argument, does not start with whitespace, and everything dropped is whitespace |
| Text.RStrip | jdidd/serial_backend.py:139 | the result is a prefix of the argument, does not end with whitespace, and everything dropped is whitespace |
| Text.WordLen | jdidd/main.py:290 | the length of the longest whitespace-free prefix, which is followed by whitespace or the end |
| Text.Words | jdidd/main.py:290 | `str.split()`: every word is non-empty and holds no whitespace |
| Text.WordsOfJoin | jdidd/main.py:290 | splitting a single-space join of non-empty, whitespace-free words gives those words back |
| Text.WordsSkipSpace | jdidd/main.py:290 | a leading space never changes the words |
| Text.WordsCons | jdidd/main.py:290 | a word followed by whitespace or by nothing is split off whole |
| Text.CollapseSpaces | jdidd/sequence_editor_dialog.py:91 | `" ".join(s.split())` splits back into the same words, so collapsing is a fixed point |
| Text.WordsAllIn | jdidd/sequence_editor_dialog.py:94 | the words of a text keep to the text's alphabet |
| Text.ReplaceAbsent | jdidd/main.py:290 | `replace` leaves a text alone when the pattern's first character does not occur in it |
| Text.Occurs | jdidd/receive_sequence_manager.py:36 | `p in s` on bytes: true exactly when `p` occurs contiguously at some index of `s` |
| Text.LineEnd | jdidd/serial_backend.py:138 | the index of the first line break, with no break before it |
| Text.SplitLines | jdidd/serial_backend.py:138 | `str.splitlines()`: no line holds a line break, and there are no lines exactly when the text is empty |
| Text.LowerChar | jdidd/calibrator_widget.py:141 | `A`-`Z` move to `a`-`z`; every other character is unchanged |
| Text.Lower | jdidd/calibrator_widget.py:141 | same length, each character lower-cased |
| Text.Filter | jdidd/sequence_editor_dialog.py:89 | keeps only allowed characters, and leaves a text that holds only allowed characters unchanged |
| Text.DropSpaces | jdidd/sequence_editor_dialog.py:104 | the result holds no space, and a text without spaces is unchanged |
| Text.DropSpacesAppend | jdidd/sequence_editor_dialog.py:104 | removing spaces distributes over concatenation |
| Text.DropSpacesOfJoin | jdidd/sequence_editor_dialog.py:104 | removing the separators of a single-space join gives the words' concatenation |
| Text.JoinSpaceAllIn | jdidd/sequence_editor_dialog.py:106 | a join keeps to an alphabet holding the space and every word's characters |
| Utf8.EncodeChar | jdidd/serial_backend.py:98 | one to four bytes; one byte exactly for code points below 0x80, and that byte is the code point; the others are continuation bytes |
| Utf8.Encode | jdidd/serial_backend.py:98 | `.encode("utf-8")`: at least one byte per character, exactly one when the text is ASCII |
| Utf8.Step | jdidd/serial_backend.py:118 | one decoding step consumes 1 to 4 bytes and yields a Unicode scalar value; the first byte is ASCII exactly when it decodes alone to a code point below 0x80 |
| Utf8.Decode | jdidd/serial_backend.py:118 | `decode("utf-8", errors="replace")` yields at most one character per byte |
| Utf8.DecodeAscii | jdidd/receive_sequence_manager.py:35 | ASCII bytes decode one to one to the same code points |
| Utf8.StepOfEncodeChar | jdidd/serial_backend.py:118 | the decoder reads back exactly the character that was encoded, consuming its encoding |
| Utf8.DecodeEncode | jdidd/serial_backend.py:118 | round trip: decoding the UTF-8 encoding of any text gives the text |
| Store.Get | jdidd/receive_sequence_manager.py:29 | `dict.get(key, default)`: the default for an absent key, the value otherwise |
| Store.Loaded | jdidd/receive_sequence_manager.py:7 | a readable file installs its list, or the empty list when its document is not a list |
| Codec.DigitValue | jdidd/main.py:290 | a character's digit value is below 10 exactly for `0`-`9` |
| Codec.FirstInvalid | jdidd/main.py:290 | the index of the first token `int()` refuses: every token before it parses and the one at it does not |
| Codec.ParseTokens | jdidd/main.py:290 | `[int(t, base) ...]` succeeds exactly when every token parses, with one value per token in order; otherwise it fails at the first refused token |
| Codec.ToBytes | jdidd/main.py:290 | `bytes(ns)` succeeds exactly when every value is in 0..255 and then keeps the values; otherwise it reports the first value out of range |
| Codec.EncodeTokens | jdidd/main.py:290 | succeeds exactly when every token reads as a byte value, then gives those values in order; a refused token is reported before any range error |
| Codec.Latin1 | jdidd/main.py:288 | `.encode("latin-1")` succeeds exactly when every code point is below 256, and then keeps them |
| Codec.Encode | jdidd/main.py:286-292 | the encoder a mode string chooses: every mode other than "ASCII" and "HEX" is read as Decimal |
| Codec.HexDigitChar | jdidd/main.py:335 | an upper-case hex digit of the given value, never `x`, `X`, `,` or whitespace |
| Codec.DecimalDigitChar | jdidd/main.py:339 | a decimal digit of the given value |
| Codec.NatToString | jdidd/main.py:339 | `str(n)` is a non-empty run of digits |
| Codec.ParseIntDigits | jdidd/main.py:290-292 | a non-empty run of base-10 or base-16 digits, not spelled with a `0x` prefix, is read by `int()` as the number it spells |
| Codec.HexPairParses | jdidd/main.py:335 | the two hex digits shown for a byte are read back by `int(p, 16)` as that byte |
| Codec.NatToStringValue | jdidd/main.py:339 | the digits of `str(n)` spell `n` |
| Codec.NatToStringParses | jdidd/main.py:339 | `int(str(n), 10) == n` |
| Codec.EncodeFromTokens | jdidd/main.py:290 | tokens that read as given byte values are encoded as exactly those bytes |
| Codec.HexDisplayRoundTrip | jdidd/main.py:335 | bytes shown as `hex(" ").upper()` and sent back through the HEX encoder give the same bytes |
| Codec.DecimalDisplayRoundTrip | jdidd/main.py:339 | bytes shown as `" ".join(str(b) ...)` and sent back through the Decimal encoder give the same bytes |
| Codec.EscapeDecodePlain | jdidd/main.py:288 | the `unicode_escape` decoder leaves bytes without a backslash unchanged |
| Codec.EncodeAsciiPlain | jdidd/main.py:287-288 | ASCII-mode text without a backslash is sent as its UTF-8 bytes |
| Normalise.ModeOf | jdidd/sequence_editor_dialog.py:35-38 | "HEX" selects HEX and "Decimal" selects Decimal; every other string, a missing one included, selects ASCII |
| Normalise.ModeName | jdidd/sequence_editor_dialog.py:64-67 | the reported mode name selects the same mode again |
| Normalise.Upper | jdidd/sequence_editor_dialog.py:89 | same length; `a`-`z` become `A`-`Z` and every other character is unchanged |
| Normalise.HexClean | jdidd/sequence_editor_dialog.py:89-91 | keeps hex digits and spaces, upper-cased, with single spaces between words and none at the ends |
| Normalise.Pairs | jdidd/sequence_editor_dialog.py:106 | `[s[i:i+2] ...]`: (n+1)/2 pieces whose concatenation is the text |
| Normalise.PairsSlices | jdidd/sequence_editor_dialog.py:106 | piece i is the slice from 2i to 2i+2, cut short at the end |
| Normalise.PairsSizes | jdidd/sequence_editor_dialog.py:106 | every piece has two characters except possibly the last, which has one |
| Normalise.HexReformat | jdidd/sequence_editor_dialog.py:104-106 | the rewritten HEX text holds only upper-case hex digits and spaces |
| Normalise.HexReformatPieces | jdidd/sequence_editor_dialog.py:104-106 | the rewritten text splits into the pairs of the cleaned digits, and without its spaces is those digits |
| Normalise.RegroupPieces | jdidd/sequence_editor_dialog.py:104-106 | regrouped digits split back into their pairs, and without spaces give the digits back |
| Normalise.DecimalClean | jdidd/sequence_editor_dialog.py:113-114 | keeps digits and spaces, with single spaces between words and none at the ends |
| Normalise.Validate | jdidd/sequence_editor_dialog.py:77-131 | ASCII is untouched and valid; HEX is rewritten by regrouping and is valid exactly when every cleaned token has at most two digits; Decimal is cleaned and is valid exactly when every cleaned token reads as a byte value (0 to 255) |
| Normalise.HexCleanIdempotent | jdidd/sequence_editor_dialog.py:89-91 | cleaning HEX twice is cleaning once |
| Normalise.CleanOfRegroup | jdidd/sequence_editor_dialog.py:89-106 | regrouped digits are already clean |
| Normalise.HexCleanOfReformat | jdidd/sequence_editor_dialog.py:89-109 | the rewritten HEX text is already clean |
| Normalise.HexReformatIdempotent | jdidd/sequence_editor_dialog.py:104-109 | rewriting HEX twice is rewriting once, so the editor never rewrites its own output |
| Normalise.HexReformatValid | jdidd/sequence_editor_dialog.py:94-106 | the rewritten HEX text is always valid |
| Normalise.HexValidateFixpoint | jdidd/sequence_editor_dialog.py:87-109 | a second HEX pass changes nothing and clears the complaint |
| Normalise.ShortHexTokenParses | jdidd/main.py:290 | a one- or two-digit hex token reads as a byte value |
| Normalise.PairsAreBytes | jdidd/main.py:290 | pairs of hex digits encode, one byte each |
| Normalise.RegroupEncodes | jdidd/main.py:290 | regrouped digits pass the HEX send encoder, giving (n+1)/2 bytes |
| Normalise.HexReformatEncodes | jdidd/sequence_editor_dialog.py:104-106 | whatever was typed, the rewritten HEX text is accepted by the HEX send encoder, one byte per regrouped token |
| Normalise.DecimalCleanIdempotent | jdidd/sequence_editor_dialog.py:113-114 | cleaning Decimal twice is cleaning once |
| Normalise.DecimalValidateFixpoint | jdidd/sequence_editor_dialog.py:111-131 | a second Decimal pass changes nothing and gives the same verdict |
| Normalise.DecimalTokensParse | jdidd/sequence_editor_dialog.py:119-121 | every cleaned Decimal token is read by `int()`, so the `except` branch is never taken |
| Normalise.DecimalValidIffEncodes | jdidd/sequence_editor_dialog.py:117-123 | the editor's Decimal verdict holds exactly when the Decimal send encoder accepts the cleaned text |
| Normalise.NumberField | jdidd/sequence_editor_dialog.py:121 | a field holding one number is valid exactly when `int()` reads it as a byte |
| Normalise.ThreeDigitField | jdidd/sequence_editor_dialog.py:121 | a three-digit field is valid exactly when its value is at most 255 |
| Normalise.DecimalMaxExample | jdidd/sequence_editor_dialog.py:121 | "255" is valid |
| Normalise.DecimalOverExample | jdidd/sequence_editor_dialog.py:121 | "256" is invalid |
| Normalise.DecimalSignExample | jdidd/sequence_editor_dialog.py:113 | "-1" is cleaned to "1" |
| Normalise.HexLongTokenExample | jdidd/sequence_editor_dialog.py:95-100 | "ABC" is invalid: one token of three digits |
| Normalise.HexReformatThree | jdidd/sequence_editor_dialog.py:106 | three hex digits are regrouped as a pair and a single digit |
| Normalise.HexRegroupExample | jdidd/sequence_editor_dialog.py:104-106 | "ABC" is rewritten as "AB C" |
| Normalise.HexExample | jdidd/sequence_editor_dialog.py:87-109 | "ABC" gets the HEX tooltip and is rewritten as "AB C" |
| Lists.ReplaceAt | jdidd/receive_sequence_manager.py:23 | same length; an index inside the list takes the new item, and every other index keeps its item |
| Lists.RemoveAt | jdidd/receive_sequence_manager.py:25 | an index outside the list changes nothing; an index inside removes exactly that item, and the others keep their order |
| Lists.Insert | jdidd/terminal_widget.py:362 | `list.insert`: the item lands at the index clamped to the length, the others keep their order, and the multiset gains the item |
| Lists.MoveRow | jdidd/terminal_widget.py:350-362 | fails exactly when the source is past the end (`pop` raises); otherwise the length is kept |
| Lists.MoveRowPermutes | jdidd/terminal_widget.py:360-362 | a move is a permutation of the rows |
| Lists.MoveRowKeepsOthers | jdidd/terminal_widget.py:360-362 | the moved row sits where it lands, and the other rows keep their relative order |
| Lists.RemoveInsert | jdidd/terminal_widget.py:360-362 | taking out what `insert` put in gives back the list |
| Lists.InsertRemove | jdidd/terminal_widget.py:360-362 | putting back what `del` took out, where it was, gives back the list |
| Lists.MoveRowUndo | jdidd/terminal_widget.py:350-362 | dragging the row back to where it came from undoes the move |
| ReceiveSequences.ResponseOf | jdidd/receive_sequence_manager.py:30 | the response is the rule's `response` or "", in its `response_mode` or "ASCII" |
| ReceiveSequences.Match | jdidd/receive_sequence_manager.py:32-38 | an empty trigger never matches; ASCII matches exactly when the trigger equals the stripped UTF-8 line; HEX matches exactly when the trigger's bytes parse and occur in the line; any other mode never matches |
| ReceiveSequences.FirstResponseNone | jdidd/receive_sequence_manager.py:26-31 | there is no response exactly when no rule fires |
| ReceiveSequences.FirstResponseEarliest | jdidd/receive_sequence_manager.py:26-31 | a response comes from the earliest rule that fires; no rule before it fires |
| ReceiveSequences.FirstResponseAppend | jdidd/receive_sequence_manager.py:27-30 | rules behind a firing prefix are never consulted; behind a silent prefix they decide alone |
| ReceiveSequences.HexTriggerOfDisplay | jdidd/receive_sequence_manager.py:36 | a HEX trigger typed as the terminal displays bytes reads back as those bytes |
| ReceiveSequences.HexTriggerMatchesDisplayed | jdidd/receive_sequence_manager.py:36 | such a trigger fires on exactly the lines that contain those bytes |
| ReceiveSequences.CommaTriggerMatchesAll | jdidd/receive_sequence_manager.py:36 | the HEX trigger "," stands for no bytes and fires on every line |
| ReceiveSequences.DecimalTriggerNeverMatches | jdidd/receive_sequence_manager.py:34-38 | a Decimal rule never fires |
| ReceiveSequences.ReceiveSequenceManager.constructor | jdidd/receive_sequence_manager.py:3 | no rules and no file |
| ReceiveSequences.ReceiveSequenceManager.LoadFromFile | jdidd/receive_sequence_manager.py:4-9 | succeeds exactly when the file exists and `json.load` returns a document; then it installs its list (empty when not a list) and remembers the path; a file that is not UTF-8 raises `UnicodeDecodeError` with nothing changed; otherwise (missing, `JSONDecodeError` or `OSError`) no rules and no path |
| ReceiveSequences.ReceiveSequenceManager.SaveToFile | jdidd/receive_sequence_manager.py:10-15 | succeeds exactly when the file is writable and the path has a directory part; then the file holds the rules and the path is remembered; otherwise nothing changes |
| ReceiveSequences.ReceiveSequenceManager.SaveCurrentFile | jdidd/receive_sequence_manager.py:16-18 | writes only when a path is remembered, and reports whether it wrote |
| ReceiveSequences.ReceiveSequenceManager.NewSet | jdidd/receive_sequence_manager.py:19 | no rules and no file; the files are untouched |
| ReceiveSequences.ReceiveSequenceManager.AddRule | jdidd/receive_sequence_manager.py:21 | the rule is appended at the end and the list is saved |
| ReceiveSequences.ReceiveSequenceManager.EditRule | jdidd/receive_sequence_manager.py:22-23 | only an index inside the list is replaced, and only then is the list saved |
| ReceiveSequences.ReceiveSequenceManager.DeleteRule | jdidd/receive_sequence_manager.py:24-25 | only an index inside the list is removed, and only then is the list saved |
| ReceiveSequences.ReceiveSequenceManager.CheckAndGetResponse | jdidd/receive_sequence_manager.py:26-31 | the loop answers with the first response of the rules, as `FirstResponse` defines it |
| SendSequences.SendSequenceManager.constructor | jdidd/send_sequence_manager.py:3 | no sequences and no file |
| SendSequences.SendSequenceManager.LoadFromFile | jdidd/send_sequence_manager.py:4-9 | a file `json.load` reads installs its list (empty when not a list) and is remembered, and this is reported as success; a file that is not UTF-8 raises `UnicodeDecodeError` with nothing changed; a missing file, or one whose reading raises `JSONDecodeError` or `OSError`, clears both and reports failure |
| SendSequences.SendSequenceManager.SaveToFile | jdidd/send_sequence_manager.py:10-15 | succeeds exactly when the file is writable and the path has a directory part; then the file holds the sequences and the path is remembered |
| SendSequences.SendSequenceManager.SaveCurrentFile | jdidd/send_sequence_manager.py:16-18 | writes only when a path is remembered, and otherwise returns false |
| SendSequences.SendSequenceManager.NewSet | jdidd/send_sequence_manager.py:19 | an empty list and no path |
| SendSequences.SendSequenceManager.AddSequence | jdidd/send_sequence_manager.py:21 | appended at the end, earlier items unchanged, then saved |
| SendSequences.SendSequenceManager.EditSequence | jdidd/send_sequence_manager.py:22-23 | only an in-range index is replaced and saved |
| SendSequences.SendSequenceManager.DeleteSequence | jdidd/send_sequence_manager.py:24-25 | only an in-range index is removed, the others keep their order, and out of range is a no-op |
| SequenceEditor.Rewrite | jdidd/sequence_editor_dialog.py:133-141 | the new text, with the caret clamped to it and kept where it fits |
| SequenceEditor.ValidateField | jdidd/sequence_editor_dialog.py:77-131 | one pass gives the verdict on the text as it was; the text is rewritten to its normal form; the caret moves only when the text changes, and stays inside it |
| SequenceEditor.SecondPassSettles | jdidd/sequence_editor_dialog.py:87-131 | a second pass changes neither text nor caret, keeps a Decimal verdict and clears a HEX complaint |
| SequenceEditor.StaleHexTooltip | jdidd/sequence_editor_dialog.py:93-109 | "ABC" is regrouped to "AB C" and flagged on the first pass; the flag goes on the next pass |
| SequenceEditor.SequenceEditorDialog.constructor | jdidd/sequence_editor_dialog.py:10-62 | absent keys read as "", the mode selects its button, and the text box, holding Qt's rendering of the stored text as HTML (the text itself when it is HTML-neutral), gets one validation pass |
| SequenceEditor.SequenceEditorDialog.ValidateCurrentText | jdidd/sequence_editor_dialog.py:77-131 | the field becomes its validated form; nothing else changes |
| SequenceEditor.SequenceEditorDialog.SetTextProgrammatically | jdidd/sequence_editor_dialog.py:133-141 | the text is replaced with the caret clamped, and the guard is down again afterwards |
| SequenceEditor.SequenceEditorDialog.OnTextChanged | jdidd/sequence_editor_dialog.py:72-75 | ignored while the guard is up; otherwise one validation pass |
| SequenceEditor.SequenceEditorDialog.UserEdit | jdidd/sequence_editor_dialog.py:72-75 | a user's edit is validated at once and leaves the caret inside the text |
| SequenceEditor.SequenceEditorDialog.OnModeChanged | jdidd/sequence_editor_dialog.py:69-70 | the new mode, and the field revalidated under it |
| SequenceEditor.SequenceEditorDialog.ValidateAndAccept | jdidd/sequence_editor_dialog.py:153-166 | refused, with the text left alone, when the stripped name or text is empty; otherwise revalidated and accepted exactly when no complaint remains |
| SequenceEditor.SequenceEditorDialog.GetData | jdidd/sequence_editor_dialog.py:168-173 | the name and the field's current (validated) text, with a mode name that selects the current mode again |
| RuleEditor.InitialResponseAsWritten | jdidd/SequenceEditorDialog2.py:50 | as written, the response field always opens empty |
| RuleEditor.InitialResponse | jdidd/SequenceEditorDialog2.py:50 | corrected, the response field opens with the rule's `response`, or "" |
| RuleEditor.RuleData | jdidd/SequenceEditorDialog2.py:222-229 | stripped name, trigger and response, both modes by name, and no `enabled` key |
| RuleEditor.ResponseNotPrefilled | jdidd/SequenceEditorDialog2.py:50 | as written, reopening a saved rule with a non-blank response does not show it |
| RuleEditor.ReopenShowsSaved | jdidd/SequenceEditorDialog2.py:31-70 | corrected, reopening a saved rule reads every field back as it was saved, the response included |
| RuleEditor.SequenceEditorDialog2.constructor | jdidd/SequenceEditorDialog2.py:7-91 | corrected (response read under `"response"`): absent keys read as "", unknown modes as ASCII, each text box holds Qt's rendering of its text as HTML (the text itself when it is HTML-neutral), and both fields get one validation pass under their own modes |
| RuleEditor.SequenceEditorDialog2.AsWritten | jdidd/SequenceEditorDialog2.py:7-91 | as written (response read under `"reponse"`): the same, except that the response box always opens empty |
| RuleEditor.SequenceEditorDialog2.ValidateCurrent | jdidd/SequenceEditorDialog2.py:115-185 | one pass over the target field under its own mode; the other field is untouched |
| RuleEditor.SequenceEditorDialog2.SetTextProgrammatically | jdidd/SequenceEditorDialog2.py:187-194 | the target field's text is replaced with the caret clamped; the other field is untouched and the guard is down afterwards |
| RuleEditor.SequenceEditorDialog2.OnTextChanged | jdidd/SequenceEditorDialog2.py:104-113 | ignored while the guard is up; otherwise the changed field alone is revalidated |
| RuleEditor.SequenceEditorDialog2.UserEdit | jdidd/SequenceEditorDialog2.py:104-113 | a user's edit of one field is validated at once and leaves the caret inside that field |
| RuleEditor.SequenceEditorDialog2.OnModeChanged | jdidd/SequenceEditorDialog2.py:102-103 | the trigger mode changes and only the trigger is revalidated |
| RuleEditor.SequenceEditorDialog2.OnResponseModeChanged | jdidd/SequenceEditorDialog2.py:108-109 | the response mode changes and only the response is revalidated |
| RuleEditor.SequenceEditorDialog2.ValidateAndAccept | jdidd/SequenceEditorDialog2.py:203-220 | refused when the stripped name, trigger or response is empty; otherwise both fields are revalidated and OK is accepted exactly when neither has a complaint |
| RuleEditor.SequenceEditorDialog2.RevalidateAndAccept | jdidd/SequenceEditorDialog2.py:212-220 | both fields revalidated; accepted exactly when neither verdict complains |
| RuleEditor.SequenceEditorDialog2.GetData | jdidd/SequenceEditorDialog2.py:222-229 | the rule the fields describe, without an `enabled` key |
| Port.Collect | jdidd/serial_backend.py:108 | `read(4096)` under the port's total timeout (`timeout=1`, jdidd/main.py:478): at most 4096 bytes; fewer only when the whole timeout has passed with nothing left buffered; no byte lost or reordered between what is returned, what stays buffered and what is still to come |
| Port.ReadWaitsOutTimeout | jdidd/serial_backend.py:108 | "A" at 50 ms and "B" 1400 ms later: the first read returns "A" after the full second, and the next one returns "B" |
| Port.SerialPort.Write | jdidd/serial_backend.py:98-99 | raises exactly when the device is failing, changing nothing; otherwise the bytes are recorded as written, and nothing else changes |
| Port.SerialPort.ReadBlocking | jdidd/serial_backend.py:108 | raises exactly when the device is failing, changing nothing; otherwise returns, leaves buffered and leaves to come what `Collect` says, and the clock moves by the time the read took |
| Port.SerialPort.InWaiting | jdidd/serial_worker.py:45 | raises exactly when the device is failing, and otherwise counts the buffered bytes |
| Port.SerialPort.ReadBuffered | jdidd/serial_worker.py:47 | reading n buffered bytes returns them and leaves the rest, or raises when the device is failing |
| Port.SerialPort.Close | jdidd/serial_backend.py:86 | raises exactly when the port's close raises; otherwise the port is closed |
| Backend.ModulePath | jdidd/serial_backend.py:132-133 | non-empty exactly when the stripped name is in the table, and then it is the table's path |
| Backend.ModulePathExamples | jdidd/serial_backend.py:24-36 | " GSM " resolves to "svc/net/gprs"; "gsm" is unknown |
| Backend.Terminate | jdidd/serial_backend.py:96-98 | the written text ends in "\r\n", and every "\n" in it follows a "\r" |
| Backend.CrlfShape | jdidd/serial_backend.py:98 | after the rewrite every "\n" follows a "\r", and a text that ended in "\n" ends in "\r\n" |
| Backend.CrlfFollows | jdidd/serial_backend.py:98 | every "\n" of the rewritten text follows a "\r" |
| Backend.CrlfEnd | jdidd/serial_backend.py:98 | a text that ended in "\n" ends in "\r\n" after the rewrite |
| Backend.TerminateBare | jdidd/serial_backend.py:96-98 | a line without "\n" goes out as the line followed by "\r\n" |
| Backend.DrainStep | jdidd/serial_backend.py:107-116 | one more read adds its bytes, moves the time of the last data when it brought some, and stops the drain exactly when idle time or the maximum is reached |
| Backend.FirstAccepted | jdidd/serial_backend.py:138-147 | the index of the first reply line that is not blank, not a prompt and not a `get` echo |
| Backend.ExtractedIsClean | jdidd/serial_backend.py:136-148 | when some line qualifies, the value is not blank, not a prompt, not a `get` echo, and carries no surrounding whitespace |
| Backend.SetCommand | jdidd/serial_backend.py:184 | "set key" when the value is missing or "", otherwise "set key value" |
| Backend.ExchangeDrains | jdidd/serial_backend.py:160-172 | the four drains run back to back with the bounds 120/1500, 120/1500, 250/3000, 120/1500 |
| Backend.SerialBackend.constructor | jdidd/serial_backend.py:38-42 | no port |
| Backend.SerialBackend.Attach | jdidd/main.py:448-471 | the backend holds the app's port and the port name from the settings |
| Backend.SerialBackend.Disconnect | jdidd/serial_backend.py:83-90 | the port is forgotten even when its close raises, after which the backend is offline; a close that does not raise closes the port |
| Backend.SerialBackend.WriteLine | jdidd/serial_backend.py:93-99 | offline, nothing is written; a failing device raises and nothing changes; otherwise exactly the terminated line as UTF-8 is written, and nothing else changes |
| Backend.SerialBackend.DrainUntilIdle | jdidd/serial_backend.py:101-120 | offline gives "" and touches nothing; a failing device raises at the first read and nothing changes; otherwise the reads follow the drain's stop rule, the clock ends at the last read, and the text is the bytes read, decoded |
| Backend.SerialBackend.Ask | jdidd/serial_backend.py:160-161 | one line written, then its reply drained under the given bounds; on a failing device the write raises and nothing is sent |
| Backend.SerialBackend.Exchange | jdidd/serial_backend.py:159-174 | writes "cd /", "cd path", the command and "cd /", in that order, each followed by a drain, and the value is extracted from the third reply only; on a failing device the exception, with its text, is the result and nothing is sent |
| Backend.SerialBackend.DoGet | jdidd/serial_backend.py:152-174 | an unknown module, then an offline port, each answered without any write; otherwise one exchange around `get key`, whose exception reaches the caller |
| Backend.SerialBackend.DoSet | jdidd/serial_backend.py:177-198 | the same checks in the same order; otherwise one exchange around the SET command, whose exception reaches the caller |
| Worker.SerialWorker.constructor | jdidd/serial_worker.py:17-21 | running, not paused, nothing emitted |
| Worker.SerialWorker.Pause | jdidd/serial_worker.py:24-26 | the pause flag takes the value, and nothing else changes |
| Worker.SerialWorker.Stop | jdidd/serial_worker.py:58-60 | the run flag goes down, and nothing else changes |
| Worker.SerialWorker.Iterate | jdidd/serial_worker.py:34-54 | a missing or closed port emits the error and ends the loop; while paused nothing is read; a failing device emits its error and ends the loop; otherwise exactly the waiting bytes are read and emitted when non-empty |
| Worker.SerialWorker.Step | jdidd/serial_worker.py:32-54 | a stop request ends the loop; the loop ends only when the run flag is down or an error was just emitted; a paused reader that is not resumed reads nothing; every arriving byte is delivered |
| Worker.SerialWorker.Turn | jdidd/serial_worker.py:32-54 | one pass of the `while` loop keeps what the loop promises: no `finished` yet, no stop passed over, every byte that arrived delivered, a paused reader not yet resumed has read nothing, and the loop ends only at a stop, with the run flag down, or right after an error |
| Worker.SerialWorker.Loop | jdidd/serial_worker.py:32-54 | the `while` loop emits no `finished`; it ends at the first stop, and otherwise only when the run flag was already down or right after an emitted error; it delivers every byte of the actions it consumed, in order |
| Worker.SerialWorker.EmitFinished | jdidd/serial_worker.py:55-56 | exactly one `finished` is added after whatever was emitted last, and the delivered bytes stay as they were |
| Worker.SerialWorker.Run | jdidd/serial_worker.py:29-56 | `finished` is emitted exactly once when the loop ends and never otherwise; the loop ends at the first stop, and otherwise only when the run flag was already down or right after an emitted error (closed port or read error); every byte that arrives is delivered in order; a paused reader that is never resumed reads nothing |
| App.FirstNewline | jdidd/main.py:364 | the index of the first newline, with no newline before it |
| App.Cut | jdidd/main.py:364 | `split(b'\n', 1)`: a line without newline, the newline, and the rest give back the buffer |
| App.FramesCons | jdidd/main.py:361-365 | a newline-free line followed by a newline is the first frame cut off |
| App.FramesUnique | jdidd/main.py:361-365 | the framing is the only lossless split into at most n newline-free lines that leaves no newline when fewer than n were cut |
| App.FramesOfPieces | jdidd/main.py:356 | a line split across two received chunks is framed as if the bytes had come at once |
| App.Latin1Decode | jdidd/main.py:331 | one character per byte, with the byte's code |
| App.DisplayRoundTrip | jdidd/main.py:335-339 | in HEX and Decimal display modes, what the terminal shows of sent or received bytes, sent back in the same mode, gives those bytes |
| App.UnitEffectCases | jdidd/main.py:367-388 | a blank line is shown blank and never reaches the auto-responder; any other line is shown, then the first response is sent and echoed (or reported as not connected, or its write error reported), or a format error is reported |
| App.LineBytes | jdidd/main.py:299 | encoding a text line succeeds exactly when every character is Latin-1 |
| App.LineBytesValue | jdidd/main.py:299 | a Latin-1 line goes out as its bytes followed by CR LF |
| App.SerialApp.constructor | jdidd/main.py:96-143 | empty buffer and queue, no burst, ASCII display, timers stopped, terminal page |
| App.SerialApp.OnDisplayModeChanged | jdidd/main.py:263-264 | the display mode changes, and the buffer, queue and output do not |
| App.SerialApp.UpdateTerminal | jdidd/main.py:353-358 | the chunk is appended to the buffer, a burst is in progress, and processing is scheduled |
| App.SerialApp.RxTimeout | jdidd/main.py:350-351 | the only place the burst flag is cleared |
| App.SerialApp.Status | jdidd/main.py:314-346 | the port is offline exactly when it is not open, and failing exactly when it is open and its writes raise |
| App.SerialApp.SendData | jdidd/main.py:314-346 | offline, a warning; a write that raises is reported as `[SEND ERROR]` with its reason and nothing is shown or written; otherwise the bytes are written to the port and shown in the display mode |
| App.SerialApp.WriteAutoResponse | jdidd/main.py:396-408 | the response is encoded under its own mode and sent; one that does not encode is reported and nothing is sent |
| App.SerialApp.HandleLine | jdidd/main.py:364-388 | the output grows by exactly the line's effect |
| App.SerialApp.ProcessBufferedData | jdidd/main.py:360-391 | the lines cut, each with its newline, followed by the new buffer, give back the old buffer; at most 100 are cut and no newline remains when fewer were; their effects are output in order; the timer is re-armed exactly when a newline remains |
| App.SerialApp.WriteToSerial | jdidd/main.py:304-307 | the sequence joins the tail of the queue and the send timer runs |
| App.SerialApp.WriteLineToSerial | jdidd/main.py:309-312 | the line joins the tail of the queue and the send timer runs |
| App.SerialApp.ProcessSendQueue | jdidd/main.py:275-302 | with an empty queue or during a burst nothing is taken and the timer stops; otherwise the head item alone is taken and served as `ItemEffect` defines; the timer then stops when the queue is empty, unless serving the item raised (a line that is not Latin-1) |
| App.SerialApp.EnterCalibratorMode | jdidd/main.py:233-250 | the calibrator page is shown, the reader is paused, and a connected port is handed to the backend |
| App.SerialApp.EnterTerminalMode | jdidd/main.py:252-259 | the terminal page is shown and the reader resumes |
| Terminal.ApplyCode | jdidd/terminal_widget.py:234-242 | 0 resets every attribute, 1 sets bold, 30-37 and 90-97 set the text colour, 40-47 and 100-107 set the background, and any other code changes nothing |
| Terminal.SplitOnPieces | jdidd/terminal_widget.py:225 | no piece of `split(";")` holds a separator |
| Terminal.SplitOnJoin | jdidd/terminal_widget.py:225 | `";".join(s.split(";")) == s` |
| Terminal.ApplyAll | jdidd/terminal_widget.py:229-242 | the inner loop applies each non-empty code in turn, as `ApplyCodes` defines |
| Terminal.EmptyParamsReset | jdidd/terminal_widget.py:225-230 | `ESC[m`, `ESC[;m` and the like reset the style |
| Terminal.ResetForgets | jdidd/terminal_widget.py:234-236 | after a reset the style no longer depends on what came before |
| Terminal.ParamEndSpec | jdidd/terminal_widget.py:219 | the run of `[0-9;]` found is the longest one |
| Terminal.MatchAt | jdidd/terminal_widget.py:219 | a match that starts at a position is at least three characters long and fits the text |
| Terminal.MatchAtSpec | jdidd/terminal_widget.py:219 | a match is exactly ESC, `[`, characters of `[0-9;]`, then `m` |
| Terminal.NextMatch | jdidd/terminal_widget.py:219 | the next match starts at or after the position and fits the text |
| Terminal.NextMatchLeftmost | jdidd/terminal_widget.py:219 | the match found is the leftmost one, and when none is found none starts anywhere after the position |
| Terminal.PaintKeepsText | jdidd/terminal_widget.py:222-246 | formats change no text |
| Terminal.PiecesKeepText | jdidd/terminal_widget.py:219-246 | cutting the text at the matches loses and adds no character outside them |
| Terminal.RenderShowsVisible | jdidd/terminal_widget.py:219-246 | the inserted runs spell the input with every `ESC[...m` removed, in order |
| Terminal.PaintStep | jdidd/terminal_widget.py:220-244 | one match: the text before it in the current format, then the rest from the format its codes give |
| Terminal.PlainTextOneRun | jdidd/terminal_widget.py:246 | text without ESC shows as one run in the default format |
| Terminal.LastPiece | jdidd/terminal_widget.py:246 | after the last match the rest goes in as one run, even when empty |
| Terminal.BoldRedCodes | jdidd/terminal_widget.py:225-240 | `1;31` gives bold text in #c91b00 on the default background |
| Terminal.ResetCode | jdidd/terminal_widget.py:234-236 | `0` gives the default format from any style |
| Terminal.BoldRedPieces | jdidd/terminal_widget.py:219 | the example's matches cut it into `1;31`, "A", `0`, "B" |
| Terminal.BoldRedPaint | jdidd/terminal_widget.py:222-246 | those pieces are painted as "A" in bold red and "B" in the default format |
| Terminal.BoldRedThenReset | jdidd/terminal_widget.py:216-246 | rendering `ESC[1;31mA ESC[0mB` gives "A" in bold red, then "B" in the default format |
| Terminal.Toggled | jdidd/terminal_widget.py:468-471 | only an in-range row changes, and only its `enabled` flag, which is flipped (absent counting as true) |
| Terminal.ToggledFires | jdidd/terminal_widget.py:471 | a toggled rule fires exactly when it was disabled and its trigger matches, with the same response |
| Terminal.ToggleTwice | jdidd/terminal_widget.py:468-471 | toggling a row twice gives back the auto-responder's answers for every input |
| Terminal.TerminalWidget.HandleRowsMoved | jdidd/terminal_widget.py:345-368 | the manager's own list is moved in place, or left alone when `pop` raises; the other manager is untouched |
| Terminal.TerminalWidget.ToggleTriggerState | jdidd/terminal_widget.py:468-471 | the rules are toggled at the row, and the file is saved only for an in-range row |
| Terminal.TerminalWidget.AppendAnsiText | jdidd/terminal_widget.py:174-248 | the display grows by the rendering of the text, which `RenderShowsVisible` and `BoldRedThenReset` characterise |
| Calibrator.NormalizeSchema | jdidd/calibrator_widget.py:33-46 | succeeds exactly when a `cartes`, `boards` or `cards` entry is an object, or the document is a non-empty object of objects; the result always has an object `cartes`; otherwise a schema error |
| Calibrator.SchemaPrecedence | jdidd/calibrator_widget.py:39-45 | `cartes` is kept as is; otherwise `boards`, then `cards`, becomes `cartes`; otherwise the whole document does |
| Calibrator.NormalizeIdempotent | jdidd/calibrator_widget.py:39-40 | normalising a normalised document gives it back |
| Calibrator.SetFieldGet | jdidd/calibrator_widget.py:73 | after `d[key] = v`, `d[key]` is `v` and other keys read as before |
| Calibrator.PopSetField | jdidd/calibrator_widget.py:301 | popping the key that was just set gives its value and the object as before |
| Calibrator.PopFieldGet | jdidd/calibrator_widget.py:301 | popping one key leaves every other key reading as before |
| Calibrator.Candidates | jdidd/calibrator_widget.py:57-66 | the explicit path first when it is given and non-empty, then the four database files in the code's order |
| Calibrator.LoadFromFirst | jdidd/calibrator_widget.py:68-74 | the load succeeds exactly when some candidate loads; then the first such candidate wins, tagged with its path, and every file before it is missing or fails |
| Calibrator.LoadFromFails | jdidd/calibrator_widget.py:75-82 | when nothing loads, the error lists the failures of every existing file, in order |
| Calibrator.TagRoundTrip | jdidd/calibrator_widget.py:73 | the tag the loader adds is popped back off as the path, leaving the document as it was |
| Calibrator.LoadedIsSchema | jdidd/calibrator_widget.py:72-74 | what the loader returns has an object `cartes`, also once the tag is popped |
| Calibrator.TryCandidate | jdidd/calibrator_widget.py:69-76 | nothing for a missing file, the reason for a failing one, otherwise the normalised object |
| Calibrator.LoadConfigAny | jdidd/calibrator_widget.py:49-82 | tries the candidates in the order above, as `LoadFrom` defines |
| Calibrator.LoadFromList | jdidd/calibrator_widget.py:68-82 | the loop over the candidates, recording failures in `tried` |
| CalibratorPage.PresentSpec | jdidd/calibrator_widget.py:406 | the preferred keys kept are those in both the order and the params, without repeats |
| CalibratorPage.RemainingSpec | jdidd/calibrator_widget.py:406 | the remaining keys are those of the params outside the order, without repeats |
| CalibratorPage.PreferredOrdersDistinct | jdidd/calibrator_widget.py:392-402 | each fixed order is free of repeats |
| CalibratorPage.NvmOrderDistinct | jdidd/calibrator_widget.py:394-400 | the 25 NVM keys are distinct |
| CalibratorPage.OrderedKeysPermute | jdidd/calibrator_widget.py:403-406 | the ordered keys are a permutation of the params' keys, without repeats |
| CalibratorPage.PreferredFirst | jdidd/calibrator_widget.py:404-406 | a key of the fixed order comes before every key outside it |
| CalibratorPage.RowDefShape | jdidd/calibrator_widget.py:412-422 | a key gives at most one row, and that row carries the key and its description |
| CalibratorPage.RowDefsLength | jdidd/calibrator_widget.py:410-431 | at most one row per key |
| CalibratorPage.RowDefsSound | jdidd/calibrator_widget.py:411-428 | every row belongs to one of the keys and carries the description its metadata makes |
| CalibratorPage.RowDefsComplete | jdidd/calibrator_widget.py:411-428 | every key whose metadata makes a buildable description gets a row |
| CalibratorPage.EveryParamGetsARow | jdidd/calibrator_widget.py:403-431 | every such parameter gets a row, whatever order the module imposes |
| CalibratorPage.Page.constructor | jdidd/calibrator_widget.py:299-325 | the data is loaded with the tag popped and logged; the cards fill the combo box and the first card is shown; a failed load leaves the page empty with the error logged |
| CalibratorPage.Page.OnCardChanged | jdidd/calibrator_widget.py:358-377 | the card's log lines are appended; when the card's modules are an object their names fill the combo box, otherwise the list is left as it was; the rows become the card's first module's rows |
| CalibratorPage.Page.AddRow | jdidd/calibrator_widget.py:412-430 | a row is built exactly when the metadata makes a description; the log grows by that key's line |
| CalibratorPage.Page.ShowRow | jdidd/calibrator_widget.py:425-428 | the row is built and appended, and its access and type are logged |
| CalibratorPage.Page.OnModuleChanged | jdidd/calibrator_widget.py:379-434 | the rows become those of the module, in the module's order, with the module's log; it raises exactly when the current card's modules (or the cards) are not an object, as after a card whose modules are not a dict, and then the rows are cleared and nothing is logged |
| CalibratorPage.Page.ShowKeys | jdidd/calibrator_widget.py:410-431 | the loop logs one line per key, creates one row per buildable key, and counts them |
| ParamRows.SortChoicesSpec | jdidd/calibrator_widget.py:129 | the choices come out in `sort_key` order and are exactly the choice keys |
| ParamRows.IntKeysFirst | jdidd/calibrator_widget.py:123-129 | integer keys come first, by value; the others follow in string order |
| ParamRows.ExampleKeys | jdidd/calibrator_widget.py:123-127 | `sort_key` gives "9" and "10" their integer values and keeps "A" as a string |
| ParamRows.SortExample | jdidd/calibrator_widget.py:129 | "9" comes before "10", and both come before "A" |
| ParamRows.AccessGetSet | jdidd/calibrator_widget.py:141-148 | "getset" shows both buttons |
| ParamRows.AccessGetOnly | jdidd/calibrator_widget.py:141-148 | "get" shows Get alone |
| ParamRows.AccessSetOnly | jdidd/calibrator_widget.py:141-148 | "set" shows Set alone |
| ParamRows.AccessIgnoresCase | jdidd/calibrator_widget.py:141 | " GetSet " shows both buttons |
| ParamRows.OccursStrip | jdidd/calibrator_widget.py:141-143 | a whitespace-free pattern occurs in a text exactly when it occurs in the text stripped |
| ParamRows.ButtonsOfLowered | jdidd/calibrator_widget.py:205 | for an access string already lower-cased, the buttons test the same thing as the plain `in` of `_on_set` |
| ParamRows.OccursLowered | jdidd/calibrator_widget.py:141 | stripping and lower-casing again does not change what the button test finds |
| ParamRows.PickKey | jdidd/calibrator_widget.py:178 | fails exactly when the reply is non-empty but blank (`IndexError`); "" for an empty reply; otherwise the reply's last word |
| ParamRows.PickKeyOfJoin | jdidd/calibrator_widget.py:178 | a reply of space-separated words selects its last word |
| ParamRows.MakeParamDef | jdidd/calibrator_widget.py:417-422 | the label defaults to the key, the type to "text" and the access to "getset", lower-cased; choices are kept only for the "choice" type |
| ParamRows.DefaultParamDef | jdidd/calibrator_widget.py:417-422 | a parameter without metadata is a text parameter offering both Get and Set |
| ParamRows.Console.Append | jdidd/calibrator_widget.py:165-166 | the console gains the line at its end |
| ParamRows.ChoiceIsItem | jdidd/calibrator_widget.py:179-183 | a choice the reply names is one of the combo box's items |
| ParamRows.FillCombo | jdidd/calibrator_widget.py:129-130 | one item per choice, in `sort_key` order, each labelled with its choice's text |
| ParamRows.ParamRow.constructor | jdidd/calibrator_widget.py:93-163 | the row of a creatable description: its items, the first selected, and an empty text |
| ParamRows.ParamRow.OnGet | jdidd/calibrator_widget.py:170-190 | the backend's GET is run; its reply is an error exactly when the backend's port raised, and is then logged as `[ERREUR] GET`; otherwise it is taken as `ApplyGetReply` says |
| ParamRows.ParamRow.ApplyGetReply | jdidd/calibrator_widget.py:170-190 | the request and reply are logged; a combo box moves to the reply's last word when that is a choice; a line edit takes the reply |
| ParamRows.ParamRow.PickReply | jdidd/calibrator_widget.py:177-184 | the selection moves only when the reply's last word is a choice, and then to that choice |
| ParamRows.ParamRow.Select | jdidd/calibrator_widget.py:180-183 | the first item whose key is the one asked for becomes current |
| ParamRows.ParamRow.OnSet | jdidd/calibrator_widget.py:192-216 | the backend is asked exactly when the value is non-empty or the access allows Set without Get, and then with that value; its reply is an error exactly when the backend's port raised; the exchange or the `[ERREUR] SET` line is logged only then |
| ParamRows.ParamRow.ApplySetReply | jdidd/calibrator_widget.py:192-216 | sends exactly when the value is non-empty or the access allows Set without Get; what is sent is the value, and only then is the exchange logged |
| ParamRows.EmptySetOnlyWhenSetShown | jdidd/calibrator_widget.py:204-206 | for a row the page built, an empty value is sent exactly when the row shows Set and hides Get |

## Left out

- Qt widgets are not modelled: layouts, styling, signals, message boxes and file dialogs. A message box becomes a log or output entry where the program's later behaviour depends on it.
- The Qt timers are modelled as flags and one method per timeout. Their periods and the event loop are not modelled.
- Threads are not modelled: the reader thread, cross-thread `stop`, the scripting runner (`jdidd/main.py:30-90`), and the busy-wait with `processEvents` in `send_data` (`jdidd/main.py:319-321`). `App.SerialApp.SendData` sends at once.
- Real time, timestamps and QColor values are not modelled. Drains run on the scripted port's logical clock, lines carry no timestamp, and colours are their hex strings.
- pyserial, `connect_with_settings`, `available_ports` and `check_ports.py` are not modelled. The port is `Port.SerialPort`, a script of arrivals. Its `Receive` and `Fail` methods stand for the device's side. A device fails between calls, never in the middle of one, so a failing port raises at the first write or read of a GET, SET or send.
- `SequenceEditor.SequenceEditorDialog.constructor`, `RuleEditor.SequenceEditorDialog2.constructor` and `RuleEditor.SequenceEditorDialog2.AsWritten`: Qt's conversion of the stored text, read as HTML, into the text box's plain text is not modelled. It is a parameter of the constructor, pinned to the stored text only when that text is HTML-neutral (no `<` or `&`, and no whitespace but single spaces between other characters). HEX, Decimal or ASCII text with line breaks, runs of spaces or markup opens changed in ways the model does not say.
- `Store.HasDirectory`: follows POSIX `os.path.dirname`, where only "/" separates directories. On Windows, "\\" and a drive prefix such as "C:" also give a directory part; that is not modelled.
- `ReceiveSequences.Rule` and `SendSequences.Sequence`: a loaded rule or sequence file is assumed to hold objects, with string values under its keys and a boolean under `enabled`. `load_from_file` accepts any JSON list, so a hand-edited file can break that assumption. Three failures that follow are not modelled. A non-object entry makes `check_and_get_response` raise `AttributeError` at `rule.get` (`jdidd/receive_sequence_manager.py:28`), inside `process_buffered_data` on the first non-blank received line. A non-string HEX trigger raises `AttributeError` at `.replace` (line 36), where only `ValueError` is caught. An `enabled` value that is not a boolean is tested for truthiness (`not rule.get('enabled', True)`); the model has only absent, true and false.
- JSON and file-system I/O are not modelled. Files are a map from path to content, and JSON documents are a value type. Floats and duplicate keys are not modelled; lemmas that need distinct keys say so in their preconditions.
- `Codec.EscapeDecode`: only its behaviour on text without a backslash is proved (`Codec.EscapeDecodePlain`). The escapes it handles are defined but not stated as lemmas. `\N{...}` escapes are treated as errors, because the Unicode name database is not modelled.
- `Text.LowerChar`: lower-cases ASCII letters only. This agrees with `str.lower()` for the patterns the program looks for ("get", "set").
- `Codec.ParseTokens` (and the encoders built on it): Unicode digits other than ASCII are not accepted, although `int()` accepts them.
- Python reprs are not modelled. The text a non-string JSON value gives through `str()` is a placeholder, the quoting inside a logged key list is not modelled, and a PyQt `TypeError` is a generic message.
- `ParamRows.SortChoicesSpec`: states sorted order and permutation, but not the stability of Python's sort.
- `Worker.SerialWorker.Run`: runs for the finite schedule of actions it is given, one check of the run flag per action. A loop that never stops is not represented.
- Dead code is not modelled: the module-level `append_ansi_text` (`jdidd/terminal_widget.py:35-91`), `append_html` inside `toggle_trigger_state`, and `_exec_sequence` (`jdidd/serial_backend.py:122-130`).
- `log_message_to_terminal`, `append_monospace_text` and the rest of the terminal's widget output are not modelled. What they display is recorded as output entries.
- Also not modelled:
  - `_update_status_label`;
  - `_clear_params`, which the model represents as emptying the rows;
  - the page's Get All / Set All buttons;
  - the settings dialog, the parameter editor dialog, `colors.py` and the scripting dialog.

## Findings

| source | as written | input that shows it | evidently intended | confidence | as-written member | corrected member |
|---|---|---|---|---|---|---|
| jdidd/SequenceEditorDialog2.py:50 | the response field opens with `rule_data.get("reponse", "")`, a key no rule has, while `get_data` writes `"response"` (line 227) | reopening any saved rule whose response is non-blank, e.g. response "OK": the field opens empty, and OK is refused until the response is typed again | open the field with `rule_data.get("response", "")` | high (not executed) | RuleEditor.InitialResponseAsWritten, RuleEditor.ResponseNotPrefilled | RuleEditor.InitialResponse, RuleEditor.ReopenShowsSaved |
