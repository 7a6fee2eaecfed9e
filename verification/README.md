# jakel editing engine in Dafny

A model of the editing engine of `jakel.c`, a small terminal text editor.
The terminal and file I/O are left out. The model covers these parts:

- **The editor state.** The global `struct config C`, together with the static variables of `findCallback` and `processKey`, is the class `EditorState.Editor`. Each line is a `Row`: its raw characters and its cached render form.
- **Tabs and columns (`Render`).**
  - `rowCxToRx` and `rowRxToCx` are recursive functions over a line's characters.
  - `updateRow` is a method that fills an array, proved against the render function.
- **Line buffer surgery (`TextBuffer`).**
  - The bounds rules of `insertRow`, `deleteRow`, `insertRowChar` and `deleteRowChar`.
  - The split of `insertNewLine` and the join of `deleteChar`.
  - The save format of `rowsToString`, and the line splitting and trailing `\n`/`\r` strip of `openFile`.
- **The cursor-level commands (`Editing`).** `insertChar`, `insertNewLine`, `deleteChar`, `moveCursor`, Home/End and paging are functions on a `Doc` value (the lines plus the cursor). The `Editor` methods are proved to change their state exactly as those functions say.
- **The viewport rule of `scroll` (`Viewport`).**
- **The key decoder (`KeyDecoder`).** `readKey` is a pure function over the bytes that arrive before the read times out.
- **The prompt (`Prompt`).** One key of `prompt` is a pure transition. The answer buffer that doubles when full is a class over an array.
- **Incremental search (`Search`, `Editor.FindCallback`, `Editor.Find`).** The wrap-around scan, `strstr`, and the restore of the cursor on Escape.
- **The Ctrl-Q quit guard (`QuitGuard`).**
- **Frame composition (`Frame`).** The pieces `clear()` writes: screen rows, the centred banner, the status bar, the message bar and the cursor escape.

Time (`time(NULL)`) is a parameter `now`. The file contents `openFile` reads are a parameter `text`. The "Save as" answer and the result of the writes `save` performs are parameters too. Exiting the program is the `Outcome` value `Quit`.

## Model

| member | source | states |
|---|---|---|
| Keys.Ctrl | jakel.c:22 | K_CTRL keeps the low five bits of the key: the code is below 32 |
| Keys.CtrlCodes | jakel.c:22 | the Ctrl codes used by processKey and prompt are K_CTRL of 'f', 'h', 'l', 'q', 's' |
| Render.Advance | jakel.c:226-229 | a tab advances the render column to the next multiple of 8, by 1 to 8 columns; any other character advances it by one |
| Render.CxToRx | jakel.c:222-233 | rowCxToRx: the render column is never left of the raw column |
| Render.CxToRxBound | jakel.c:250-258 | the render column of cx is at most cx + 7 per tab before it, the size updateRow allocates |
| Render.CxToRxIncreasing | jakel.c:222-233 | render columns grow strictly with raw columns |
| Render.RxToCx | jakel.c:235-248 | rowRxToCx returns the first raw column whose cell ends past rx, or the line size when there is none |
| Render.RxToCxWithinCell | jakel.c:235-248 | every render column inside raw column cx's cell maps back to cx |
| Render.RxToCxPastEnd | jakel.c:235-248 | a render column at or past the rendered length maps to the line size |
| Render.RxToCxOfCxToRx | jakel.c:222-248 | rowRxToCx(rowCxToRx(cx)) == cx for every 0 <= cx <= size |
| Render.Cell | jakel.c:262-267 | a tab is drawn as spaces up to the next tab stop, anything else as itself |
| Render.RenderPrefix | jakel.c:260-268 | the render of the first k characters is rowCxToRx(k) long |
| Render.RenderOf | jakel.c:250-272 | rsize == rowCxToRx(size), and size <= rsize <= size + 7 * tabs |
| Render.RenderPrefixExtends | jakel.c:260-268 | the render of a shorter prefix is a prefix of the render of a longer one |
| Render.RenderCell | jakel.c:261-268 | raw character j occupies render columns rowCxToRx(j) .. rowCxToRx(j+1)-1; a tab becomes spaces ending on a multiple of 8, other characters are copied |
| Render.RenderHasNoTab | jakel.c:261-268 | the render form contains no tab |
| Render.DrawCell | jakel.c:262-267 | one step of updateRow's copy loop writes exactly the character's cell and leaves earlier render bytes alone |
| Render.CountTabs | jakel.c:251-255 | the first loop of updateRow counts exactly the tabs of the line |
| Render.FillRender | jakel.c:260-268 | the copy loop fills exactly rowCxToRx(size) bytes with the render form |
| Render.UpdateRow | jakel.c:250-272 | updateRow's two loops produce exactly the render form |
| TextBuffer.Insert | jakel.c:277-278 | inserting before position i: the new element is at i, the elements before keep their place, the ones after shift by one |
| TextBuffer.Remove | jakel.c:303-304 | removing position i: the elements before keep their place, the ones after shift back by one |
| TextBuffer.RemoveInsert | jakel.c:274-307 | removing what was just inserted at the same position restores the sequence |
| TextBuffer.InsertLineAtEnd | jakel.c:411 | insertRow at rowAmount appends the line |
| TextBuffer.InsertLine | jakel.c:274-293 | insertRow at 0 <= at <= rowAmount puts the line at `at`, keeps the lines before it and shifts the rest by one; any other position leaves the lines as they were |
| TextBuffer.DeleteLine | jakel.c:300-307 | deleteRow at 0 <= at < rowAmount drops that line and keeps the others in order; any other position leaves the lines as they were |
| TextBuffer.InsertCharAt | jakel.c:309-318 | insertRowChar adds exactly one character: at `at` when 0 <= at <= size, keeping the rest around it, and at the end otherwise |
| TextBuffer.DeleteCharAt | jakel.c:354-361 | deleteRowChar at 0 <= at < size drops that character and keeps the others in order; any other position leaves the line as it was |
| TextBuffer.LineBounds | jakel.c:274-307 | insertRow outside [0, rowAmount] and deleteRow outside [0, rowAmount) leave the lines equal to what they were; in range they are exactly Insert and Remove at that index, so one line appears or disappears and the others keep their order; deleteRow undoes insertRow |
| TextBuffer.CharBounds | jakel.c:309-361 | insertRowChar always adds one character: exactly Insert at an in-range position, appended otherwise; deleteRowChar is exactly Remove in [0, size) and leaves the line equal to what it was outside; deleteRowChar undoes insertRowChar |
| TextBuffer.SplitLine | jakel.c:333-338 | the split keeps chars [0, cx) on line cy and puts [cx, size) on a new line after it; other lines keep their order |
| TextBuffer.JoinLine | jakel.c:371-375 | the join appends line cy to line cy-1 and removes line cy; other lines keep their order |
| TextBuffer.JoinSplit | jakel.c:329-377 | joining the two halves of a split restores the original lines |
| TextBuffer.Serialize | jakel.c:379-396 | the save text has length Σ(size + 1) |
| TextBuffer.TotalSizeAppend | jakel.c:383 | the length sum grows by size + 1 per line |
| TextBuffer.TotalSizePrefix | jakel.c:383-393 | the bytes of the first j lines fit in the buffer rowsToString allocates |
| TextBuffer.SerializeAppend | jakel.c:388-393 | serialising one more line appends the line and one '\n' |
| TextBuffer.SerializeLine | jakel.c:379-396 | line i sits at offset Σ_{k<i}(size_k + 1) of the save text and is followed by exactly one '\n' |
| TextBuffer.IndexOf | jakel.c:409 | the first '\n' getline stops at, or none |
| TextBuffer.GetLines | jakel.c:409 | the getline pieces joined back give the whole text; each piece holds one '\n', at its end, except the last, which may hold none |
| TextBuffer.StripPieceLoadable | jakel.c:409-410 | a getline piece with its trailing '\n'/'\r' stripped has no '\n' and does not end in '\r' |
| TextBuffer.LoadLines | jakel.c:407-411 | openFile inserts one line per getline piece, and each line survives a save and a reload |
| TextBuffer.StripLineEnd | jakel.c:410 | openFile drops exactly the trailing run of '\n' and '\r' bytes: the result is a prefix that ends in neither |
| TextBuffer.StripAll | jakel.c:409-411 | each getline piece is stripped independently, in order |
| TextBuffer.StripAllSnoc | jakel.c:409-411 | stripping one more piece appends one stripped line |
| TextBuffer.LoadSerialize | jakel.c:379-417 | reading back the save text gives the same lines, for lines without '\n' and without a trailing '\r' |
| Editing.InsertCharDoc | jakel.c:320-327 | insertChar: past the last line an empty line is added first; the character goes in at cx and the cursor moves right |
| Editing.NewLineDoc | jakel.c:329-343 | insertNewLine: the line is split at cx (an empty line above at column 0); the cursor goes to column 0 of the next line |
| Editing.DeleteCharDoc | jakel.c:363-377 | deleteChar: nothing past the last line or at (0,0); inside a line the character left of the cursor goes; at column 0 the line joins the previous one and the cursor goes to the join point |
| Editing.BackspaceAfterNewLine | jakel.c:329-377 | insertNewLine then deleteChar restores the lines and the cursor |
| Editing.BackspaceAfterInsertChar | jakel.c:320-377 | insertChar then deleteChar restores the lines and the cursor |
| Editing.MoveDoc | jakel.c:568-605 | moveCursor keeps the lines and leaves 0 <= cy <= rowAmount with cx within the line |
| Editing.MoveDocCases | jakel.c:568-605 | Left at column 0 goes to the end of the previous line; Right at the end of a line goes to column 0 of the next; Up/Down clamp cx; other keys change nothing |
| Editing.RepeatMove | jakel.c:660-661 | the paging loop keeps the lines and leaves a valid cursor |
| Editing.RepeatMoveStep | jakel.c:661 | one more iteration is one more moveCursor |
| Editing.RepeatUp | jakel.c:660-661 | t steps up end t lines higher, or on line 0 |
| Editing.RepeatDown | jakel.c:660-661 | t steps down end t lines lower, or on the line past the last |
| Editing.PageArrow | jakel.c:660 | paging replays ARROW_UP exactly for PAGE_UP and ARROW_DOWN otherwise |
| Editing.PageStart | jakel.c:653-658 | PageUp puts cy on rowOffset; PageDown puts it on the window's last line, clamped to rowAmount |
| Editing.PageDoc | jakel.c:650-663 | paging leaves the lines alone and the cursor valid |
| Editing.PageTarget | jakel.c:650-663 | PageUp ends at rowOffset - rows (or 0); PageDown ends at rowOffset + 2*rows - 1 (or rowAmount) |
| Editing.KeyDoc | jakel.c:612-679 | processKey keeps the cursor valid, and keys other than editing keys leave the lines alone |
| Viewport.Snap | jakel.c:690-704 | after scroll the cursor is inside the window, and an offset that already showed it is left unchanged |
| Viewport.SnapMovesLeast | jakel.c:690-704 | no window that shows the cursor is closer to the old offset |
| Viewport.SnapIdempotent | jakel.c:690-704 | scrolling twice is scrolling once |
| QuitGuard.OnCtrlQ | jakel.c:618-625 | Ctrl-Q warns and counts down exactly when the buffer is dirty and warnings remain; otherwise it exits |
| QuitGuard.ExitsAfter | jakel.c:608-626 | a clean buffer exits on the first press, a dirty one on press quitTimes + 1, and the counter drops by one per press until then |
| QuitGuard.FourthPressExits | jakel.c:608-626 | from JAKEL_QUIT_TIMES = 3 the fourth consecutive press exits |
| Search.FindFromFirst | jakel.c:480 | the search from an index finds the first occurrence at or after it, or there is none |
| Search.CString | jakel.c:480 | a char buffer read as a C string is its prefix before the first NUL, and holds no NUL |
| Search.StrStr | jakel.c:480 | strstr's offset is a match of the query in the render read up to its first NUL |
| Search.StrStrFirst | jakel.c:480 | strstr returns the first occurrence before the render's first NUL, and nothing only when the query occurs nowhere before it |
| Search.StrStrWithoutNul | jakel.c:480 | on a render without NUL, strstr returns the first occurrence in the whole render, and nothing only when there is none |
| Search.StrStrStopsAtNul | jakel.c:480 | a line "a", NUL, "b" gives no match for "b": the text after a NUL is not searched |
| Search.EmptyQueryMatchesAtStart | jakel.c:480 | the empty query matches at offset 0 |
| Search.NextRow | jakel.c:475-477 | one scan step stays within the rows, wrapping at both ends |
| Search.Visit | jakel.c:474-477 | after at least one step, the scan is on a row |
| Search.VisitIsWrapped | jakel.c:474-477 | step k of the scan is start ± k, wrapped once |
| Search.ScanVisitsEveryRow | jakel.c:474-478 | within rowAmount steps the scan reaches every row |
| Search.ScanRevisitsStartLast | jakel.c:474-478 | from a previous match the scan comes back to it only at its last step |
| Search.ScanSetup | jakel.c:457-471 | arrows keep the previous match, Right/Down scan forwards, Left/Up backwards; any other key restarts before row 0 going forwards; with no previous match the direction is forwards |
| Search.ScanFrom | jakel.c:474-488 | a hit is a row whose render holds the query at that offset |
| Search.ScanFromFirst | jakel.c:474-488 | the scan stops at the first step whose row matches; it finds nothing only when every visited row misses |
| Search.ScanStep | jakel.c:479-487 | a miss goes on to the next step, a hit ends the scan |
| Search.Scan | jakel.c:473-488 | a hit of findCallback's scan is a row whose render holds the query at that offset |
| Search.ScanRows | jakel.c:473-488 | the loop over the rows' render forms returns exactly Scan's hit: the first row, in scan order, whose render holds the query |
| Search.ScanComplete | jakel.c:473-488 | the scan misses only when no row holds the query |
| Prompt.Start | jakel.c:530-534 | the answer starts empty, with room for its NUL |
| Prompt.Step | jakel.c:541-562 | DELETE, Ctrl-H and Backspace trim one character if there is one; Escape cancels; Enter commits only a non-empty answer; a printable byte below 128 is appended; anything else changes nothing; bufLen < bufSize always holds and the capacity never shrinks |
| Prompt.EraseAfterType | jakel.c:541-561 | erasing right after typing restores the text |
| Prompt.Run | jakel.c:536-565 | the prompt keeps room for the NUL and commits only a non-empty answer |
| Prompt.RunTyping | jakel.c:554-561 | printable keys are collected in order and never end the prompt |
| Prompt.TypeThenEnter | jakel.c:548-553 | a typed answer followed by Enter is returned |
| Prompt.RunThen | jakel.c:536-565 | while typing, one more key is one more step |
| Prompt.RunStops | jakel.c:543-553 | once the prompt has returned, later keys are not read |
| Prompt.RunExtend | jakel.c:536-565 | while the prompt is typing, key i of the run is one more Step |
| Prompt.RunPrefix | jakel.c:536-565 | the prompt ends with the state it had when it stopped reading |
| Prompt.AnswerBuffer.constructor | jakel.c:530-534 | a fresh 128-byte buffer holding the empty answer |
| Prompt.AnswerBuffer.Key | jakel.c:540-562 | the buffer after one key holds exactly the answer Step gives, and Key returns Step's status |
| Prompt.AnswerBuffer.Grow | jakel.c:555-558 | realloc to twice the size keeps the text |
| Frame.Decimal | jakel.c:745-746 | %d of a non-negative number: decimal digits, no leading zero |
| Frame.ParseDecimalOfDecimal | jakel.c:786 | the printed digits read back as the number |
| Frame.VisibleSlice | jakel.c:730-733 | a row on screen is render columns colOffset .. colOffset + cols - 1 that exist |
| Frame.VisibleColumn | jakel.c:730-733 | a render column shows exactly when it exists and lies in the window |
| Frame.ScreenText | jakel.c:710-734 | a screen row shows at most cols columns, and a file row shows its visible slice |
| Frame.Banner | jakel.c:712-725 | the banner is cut to the width, ends with the cut welcome text, and starts with '-' when padded |
| Frame.BannerCentred | jakel.c:716-723 | the space left of the banner and right of it differ by at most one column |
| Frame.PadStatusShape | jakel.c:751-759 | the padding is spaces, then the right text when it fits exactly at the last column; only spaces otherwise |
| Frame.StatusText | jakel.c:744-759 | the status text is exactly cols wide, starts with the cut left text, and ends with the right text when both fit |
| Frame.MsgBar | jakel.c:765-771 | the message shows, cut to the width, only when it is non-empty and under 5 seconds old |
| Frame.Truncate | jakel.c:796-799 | a text cut to n characters: the first min(length, n) of them |
| Frame.StatusLeft | jakel.c:745 | the left status text starts with the file name cut to 20 characters and ends in "(M)" exactly when the buffer is modified |
| Frame.StatusRight | jakel.c:746 | the right status text is cy + 1 and rowAmount in decimal around one '/', and they read back |
| Frame.PadStatus | jakel.c:751-759 | the padding loop fills exactly the cols - len columns left |
| Frame.StatusBar | jakel.c:741-763 | the status bar is cols columns of text between ESC [ 7 m and ESC [ m CR LF |
| Frame.CursorEscape | jakel.c:786 | the cursor escape starts with ESC [ and ends with H |
| Frame.DrawRows | jakel.c:707-739 | the drawn rows end in ESC [ K CR LF (each row does, by ScreenLine) |
| Frame.DrawRowsWithin | jakel.c:707-739 | counted row by row, the y screen rows take at least 5 bytes each and, on a screen at least one column wide, at most cols + 5 each |
| Frame.DrawRowsAtLeast | jakel.c:707-739 | y screen rows take at least 5 * y bytes |
| Frame.DrawRowsAtMost | jakel.c:707-739 | on a screen cols >= 1 wide, y screen rows take at most (cols + 5) * y bytes |
| Frame.CursorEscapeReadsBack | jakel.c:786 | the cursor escape is ESC [ row ; col H with the 1-based row and column in decimal |
| Frame.ScreenLine | jakel.c:709-737 | each screen row ends in ESC [ K CR LF, is at most cols wide, and shows the visible slice of its file row |
| KeyDecoder.DecodeWith | jakel.c:139-188 | a non-ESC byte is returned as is; ESC with fewer than two bytes after it is ESC; a named key needs ESC [ or ESC O and three bytes; between 1 and 4 bytes are read; the result is always a key code |
| KeyDecoder.OnlyKnownSequencesNameKeys | jakel.c:147-187 | after ESC, a named key comes only from ESC [ letter, ESC O letter or ESC [ digit terminator, mapped by their tables and reading exactly those bytes; every other sequence, including a timeout or a wrong fourth byte, gives ESC |
| KeyDecoder.ReadKey | jakel.c:139-188 | readKey as written: ESC [ digit followed by a fourth byte names a key exactly when that byte is '-' and the digit is in the table |
| KeyDecoder.ReadKeyVt100 | jakel.c:139-188 | readKey with the VT100 terminator: ESC [ digit followed by a fourth byte names a key exactly when that byte is '~' and the digit is in the table |
| KeyDecoder.DecodeEncode | jakel.c:147-181 | every key's canonical sequence decodes back to that key and reads exactly its bytes, whatever follows |
| KeyDecoder.HomeEndAliases | jakel.c:157-181 | ESC O H/F and ESC [ 1/7/4/8 followed by the terminator give Home/End |
| KeyDecoder.DecodeIsMachine | jakel.c:147-187 | the decision tree agrees with a byte-at-a-time state machine on every input |
| KeyDecoder.Vt100NumberedSequenceIsEscape | jakel.c:156 | as written, every ESC [ digit ~ decodes to Escape |
| KeyDecoder.DeleteKeyIsEscape | jakel.c:156-159 | the Delete key's ESC [ 3 ~ reads as Escape as written, and as Delete with '~' |
| KeyDecoder.Vt100NumberedKeys | jakel.c:154-165 | with '~', ESC [ d ~ decodes through the table 1/7 Home, 3 Delete, 4/8 End, 5 PageUp, 6 PageDown |
| EditorState.Editor.constructor | jakel.c:803-819 | init: empty document, cursor and offsets at 0, text area two rows shorter than the terminal, nothing modified, no file name, empty message |
| EditorState.Editor.SetStatusMsg | jakel.c:795-801 | the message keeps what fits the 80-byte buffer, and the time is recorded |
| EditorState.Editor.InsertRow | jakel.c:274-293 | the lines become InsertLine's, the render cache stays current, and modified grows by one only on an effective insert |
| EditorState.Editor.DeleteRow | jakel.c:300-307 | the lines become DeleteLine's, and modified grows by one only on an effective delete |
| EditorState.Editor.SetRowChars | jakel.c:335-338 | one line's characters replaced and its render recomputed; other lines unchanged |
| EditorState.Editor.InsertRowChar | jakel.c:309-318 | only line y changes, to InsertCharAt's; modified grows by one |
| EditorState.Editor.AppendRowString | jakel.c:345-352 | only line y changes, with s appended; modified grows by one |
| EditorState.Editor.DeleteRowChar | jakel.c:354-361 | only line y changes, to DeleteCharAt's; modified grows only on an effective delete |
| EditorState.Editor.InsertChar | jakel.c:320-327 | lines and cursor become InsertCharDoc's; modified grows by 2 past the last line (insertRow and insertRowChar), else by 1 |
| EditorState.Editor.InsertNewLine | jakel.c:329-343 | lines and cursor become NewLineDoc's; modified grows by one |
| EditorState.Editor.SplitRow | jakel.c:333-339 | the lines become SplitLine's; modified grows by one |
| EditorState.Editor.DeleteChar | jakel.c:363-377 | lines and cursor become DeleteCharDoc's; modified grows by 0, 1 (a character) or 2 (append plus deleteRow) |
| EditorState.Editor.MoveCursor | jakel.c:568-605 | the cursor becomes MoveDoc's |
| EditorState.Editor.Scroll | jakel.c:684-705 | rx is the cursor's render column; each offset snaps just far enough that rowOffset <= cy < rowOffset + rows and colOffset <= rx < colOffset + cols |
| EditorState.Editor.CursorRx | jakel.c:686-689 | the cursor's render column maps back to cx, and is 0 past the last line |
| EditorState.Editor.Page | jakel.c:650-663 | the cursor becomes PageDoc's |
| EditorState.Editor.Replay | jakel.c:660-661 | t calls of moveCursor move the cursor as RepeatMove says |
| EditorState.Editor.EditKey | jakel.c:612-679 | lines and cursor become KeyDoc's; modified grows, and it changes exactly when the lines change |
| EditorState.Editor.DeleteKey | jakel.c:643-648 | deleteChar as a key: modified changes exactly when the lines do |
| EditorState.Editor.TypeKey | jakel.c:676-678 | insertChar as a key: the lines change and modified grows |
| EditorState.Editor.ProcessKey | jakel.c:607-682 | the edit keys act as KeyDoc says; Ctrl-Q warns with "UNSAVED FILE: Press CTRL-Q n times to quit." for the count before the decrement and counts down, or quits, as OnCtrlQ says; the status message changes only for that warning; any other key re-arms the counter to 3; Ctrl-S and Ctrl-F request save and find |
| EditorState.Editor.RowsToString | jakel.c:379-396 | the text is the serialisation of the lines |
| EditorState.Editor.CopyLine | jakel.c:389-392 | one line and a '\n' are copied after the bytes already in the buffer |
| EditorState.Editor.OpenFile | jakel.c:398-417 | the file's lines, stripped of trailing '\n'/'\r', are appended; the file name is recorded and modified is reset to 0 |
| EditorState.Editor.AppendRow | jakel.c:411 | insertRow at rowAmount adds the line at the end, and modified grows by one |
| EditorState.Editor.StripLine | jakel.c:410 | the trim loop leaves StripLineEnd's line |
| EditorState.Editor.Save | jakel.c:419-451 | with no name and a cancelled prompt: "Save cancel" and nothing written; otherwise the serialised lines are written; success resets modified and reports the byte count; failure keeps modified and reports the error |
| EditorState.ScanHitsMatch | jakel.c:473-488 | the scan over the rows hits a row whose render holds the query at that offset, and misses only when no row holds it |
| EditorState.AfterCallback | jakel.c:453-489 | findCallback's effect on the search state, cursor and row offset: Enter/Escape reset lastMatch and direction and move nothing; other keys set the direction from ScanSetup, and the cursor moves only to the row of the new previous match, with rowOffset = rowAmount |
| EditorState.Editor.FindCallback | jakel.c:453-489 | lastMatch, direction, cx, cy and rowOffset become AfterCallback's: Enter/Escape reset the search; other keys scan from ScanSetup's start and move the cursor to the first hit (cx = rowRxToCx(offset), rowOffset = rowAmount) or leave it; the cursor is at a match exactly when some row matches |
| EditorState.Editor.JumpToMatch | jakel.c:470-488 | the cursor moves to Scan's hit and it becomes the previous match; with no hit nothing moves |
| EditorState.Editor.Find | jakel.c:491-507 | the prompt's status is Run's; Escape restores cx, cy, colOffset and rowOffset; a finished prompt resets the search state; a committed query leaves the cursor at a match when one exists |
| EditorState.Editor.PromptFind | jakel.c:529-566 | the prompt loop ends as Run says, and after every key the cursor is at a match of the answer so far when one exists |
| EditorState.Editor.FindKey | jakel.c:536-564 | one prompt pass: the redraw sets rx to the cursor's render column and snaps both offsets; the key changes the answer as Step says; the status message is the prompt text while typing and empty once the prompt ends; findCallback then sets the search state and cursor as AfterCallback says from the scrolled row offset |
| EditorState.Editor.FindStep | jakel.c:540-564 | the key changes the answer as Step says; the status message is kept while typing and cleared when the prompt ends; findCallback sets the search state and cursor as AfterCallback says, and the cursor is at a match of the new answer when one exists |
| EditorState.Editor.TakeKey | jakel.c:541-562 | the answer changes as Step says and is returned as the query; the status message is cleared when the prompt ends and kept while typing |
| EditorState.Editor.ShowPrompt | jakel.c:536-538 | the prompt text becomes the status message; the redraw's scroll sets rx to the cursor's render column and snaps rowOffset and colOffset so that the cursor is in the window |
| EditorState.Editor.DrawBanner | jakel.c:712-725 | the padding loop builds Banner |
| EditorState.Editor.Draw | jakel.c:707-739 | the rows loop builds DrawRows |
| EditorState.Editor.DrawLine | jakel.c:709-737 | one row of draw is ScreenLine |
| EditorState.Editor.DrawVisible | jakel.c:729-733 | the clamped length gives VisibleSlice |
| EditorState.Editor.DrawStatusBar | jakel.c:741-763 | the status bar is the left text cut to the width, the padding and right text, in reverse video |
| EditorState.Editor.DrawPadding | jakel.c:751-759 | the padding loop builds PadStatus |
| EditorState.Editor.Clear | jakel.c:773-793 | scroll, then the frame: hide and home the cursor, rows, status bar, message bar, the cursor escape at (cy - rowOffset, rx - colOffset) inside the window, show the cursor |

## Left out

- Terminal raw mode (`enterRawMode`, `exitRawMode`, jakel.c:86-137) and `atexit`: these are operating-system calls.
- The window-size query (`getSize`, `getCursorPos`, jakel.c:190-220): the constructor takes the terminal's rows and columns as parameters.
- `kill` and `exit` (jakel.c:78-84, 625): a fatal error is not modelled, and quitting is the outcome `Quit`.
- File I/O in `openFile` and `save`. `fopen` failing is not modelled. The file's text, the "Save as" answer and the error text of a failed write are parameters. `Save` returns the text it would write.
- The blocking retry loop of `readKey` (jakel.c:143-145). The decoder sees the bytes that arrive before the timeout, and a missing byte is a timeout.
- The signedness of `char` in `readKey`: bytes are 0..255 and are returned unchanged.
- `int` is unbounded in the model. The 32-bit overflow of `modified`, counters and column arithmetic is not modelled.
- Rows are a sequence of values. The model keeps the contents of `realloc`/`memmove` but not pointer aliasing or the allocation itself. An allocation failure (`malloc`/`realloc` returning NULL, and the early return of `appendToBuf` at jakel.c:519) is not modelled.
- `vsnprintf` formatting in `setStatusMsg`: callers pass the formatted text, which is cut to 79 characters plus the NUL.
- The final `write` of the frame (jakel.c:791): `Clear` returns the frame, and `ShowPrompt` discards it.
- The "Save as" prompt's own redraws (jakel.c:421): `Save` receives only the prompt's answer.
- EditorState.Editor.constructor: requires a terminal of at least 3 rows and 1 column. `init` accepts any size and leaves `C.rows = rows - 2`, which may be 0 or negative. The window rule of `scroll` (the cursor lies inside the window) needs a text area of at least one row and one column, so smaller terminals are not modelled.
- EditorState.Editor.Find: takes the finite sequence of keys the prompt reads. When the keys run out with the prompt still open, it reports `Typing`, whereas the program would go on reading.
- EditorState.Editor.FindCallback: requires `lastMatch` to be -1 or a row index. This always holds in the program: Enter and Escape reset it to -1 before each search ends, and the rows do not change during a search.
- EditorState.Editor.ProcessKey: requires `rowOffset <= rowAmount`. The main loop calls `clear()`, and so `scroll()`, before every `processKey`, which leaves `rowOffset <= cy <= rowAmount`.
- EditorState.Editor.Save: records one error text for any failing step among `open`, `ftruncate` and `write`. It does not model a partial write.

## Findings

| source | as written | input that shows it | evidently intended | confidence | as-written member | corrected member |
|---|---|---|---|---|---|---|
| jakel.c:156 | a numbered sequence must end in `'-'` | the bytes `ESC [ 3 ~` a VT100 terminal sends for Delete (likewise `ESC [ 5 ~` / `ESC [ 6 ~` for PageUp / PageDown) decode as Escape | the VT100 terminator `'~'`, so these keys decode to Delete, PageUp, PageDown, Home and End | not executed; follows from the comparison at jakel.c:156 | KeyDecoder.Vt100NumberedSequenceIsEscape | KeyDecoder.Vt100NumberedKeys |

The decoder is modelled with the terminator as a parameter. `KeyDecoder.ReadKey` uses `'-'`, as written. `KeyDecoder.ReadKeyVt100` uses `'~'`. `KeyDecoder.DecodeEncode` proves that every key's VT100 sequence decodes back to that key when the terminator is `'~'`.
