# vim-ai chat core in Dafny

vim-ai is a Vim/Neovim plugin. It sends the text of a buffer to a chat-completion
backend and types the streamed answer back into the buffer. This project models
the editor-independent core of the plugin's Python code. That code exists twice,
in near-identical copies, in `py/vim_ai.py` and `py/utils.py`. The model covers:

- **Prompt** — `parse_prompt_and_role`. It splits a leading `/role` token off a
  prompt. The token ends at the first space or colon.
- **Transcript** — `parse_chat_messages`. It turns a chat buffer into messages.
  Each line that starts with `>>> system`, `>>> user`, `>>> include` or
  `<<< assistant` opens a message. Other lines grow the message that is open.
  Lines before the first marker are dropped. Every message is then stripped, and
  an include message becomes a user message.
  - The scanning loop is the method `ScanMessages`. It is proved equal to the
    function `Blocks`.
  - The finishing loop is `FinishMessages`. It is proved equal to `MapAll` of
    `Finish`.
- **Includes** — the two loops that expand an include message.
  - The path-rewriting loop is `ExpandIncludePaths`. Its bound is fixed at the
    original length, so glob matches are appended and never processed again.
  - The reading loop is `ReadIncludedFiles`. It adds a header and the text (or
    a binary placeholder) for each file.
  - The filesystem and path functions are fields of a `Host` value.
- **Render** — `need_insert_before_cursor` and `render_text_chunks`.
  - The editor is a class `Editor` whose `log` field records every command
    sent to it: `normal! i`, `normal! a`, `undojoin`, `redraw` and the info
    message.
  - The rendering loop keeps the source's three variables: `generating_text`,
    `insert_before_cursor` and `full_text`.
- **Errors** — `handle_completion_error` in both copies. `utils.py` has one extra
  branch, for its `KnownError`.
- **ChatWindow** — the two decisions `initialize_chat_window` makes:
  - whether to put a `>>> user` line at the top;
  - whether to append a fresh user block at the end.
- **Settings** — `Config.current_effects`: the non-empty comma-separated parts
  of the effects setting.
- **Text** — the Python string operations these rely on: `strip`,
  `startswith`, `in`, `split`, `join` and `splitlines`.
- **Wrappers** — `Option` and `Result`. A Python exception that propagates is a
  `Failure`.

The editor's answers are parameters, not calls:

- `pos` is the result of `getpos("'<")[1:2]`;
- `lines` is the buffer;
- `pwd` is the directory against which relative include entries resolve. In the source this is the
  default argument `pwd=config.pwd`. Python evaluates it once, when `parse_chat_messages` is defined
  at module load, and neither caller passes `pwd` (py/vim_ai.py:315, py/utils.py:288). So it is
  the directory Vim was in when the module was loaded, not the current working directory. The
  model takes any `pwd`, which covers that value;
- the `Host` value is the filesystem.

## Model

| member | source | states |
|---|---|---|
| Prompt.ParsePromptAndRole | py/vim_ai.py:97-106 | Defines the parse: strip, take the first token, and split off a `/role`. Characterised by RoleIffSlash, RoleComplete and RoleSound. |
| Prompt.RoleIffSlash | py/vim_ai.py:97-102 | No role exactly when the stripped prompt does not start with `/`; then the prompt is only stripped. |
| Prompt.RoleComplete | py/vim_ai.py:99-106 | Whenever the stripped prompt is `/`, a separator-free role, then text that is empty or starts with a space or colon, the result is that role and the stripped text. |
| Prompt.RoleSound | py/utils.py:89-98 | A stripped prompt that starts with `/` always splits as `/role` + rest, and the result is (rest stripped, role). |
| Prompt.FirstTokenPlain | py/vim_ai.py:99 | The first token of a separator-free word followed by a separator-led rest is the word. |
| Prompt.FirstToken | py/vim_ai.py:99 | The first token is a prefix of the prompt without separators and ends at a separator or at the end. |
| Prompt.RoleThenPhrase | py/vim_ai.py:97-106 | `/role phrase`, with the phrase already stripped, gives (phrase, role). |
| Prompt.CoderExample | py/vim_ai.py:97-106 | `/coder fix this` gives (`fix this`, `coder`). |
| Prompt.PlainExample | py/vim_ai.py:97-102 | `  fix this\n` gives (`fix this`, no role). |
| Transcript.MarkerRole | py/vim_ai.py:113-124 | Defines which marker a line opens, tested in the source's order. Characterised by MarkerRoleIffPrefix. |
| Transcript.ScanStep | py/vim_ai.py:112-127 | Defines one iteration of the scanning loop. Characterised by BlocksSnoc and ScanMessages. |
| Transcript.Blocks | py/vim_ai.py:112-127 | Defines the scanned messages. Characterised by BlocksFollowMarkers, BlockAtMarker, BodyIsRun, PreambleIgnored and BlocksEmptyIff. |
| Transcript.Finish | py/vim_ai.py:129-161 | Defines the finishing of one message. Characterised by FinishRole, FinishPlain, FinishMessage and ParsedInclude. |
| Transcript.Parse | py/vim_ai.py:109-163 | Defines the whole parse. Characterised by ParseChatMessages, ParsedRoles, ParsedContent, ParsedInclude, ParseFailsIff and ParseFirstFailure. |
| Transcript.MarkerRoleIffPrefix | py/utils.py:105-116 | A line opens a message of role r exactly when it starts with r's marker; the four markers never overlap. |
| Transcript.UserMarkerWithSuffix | py/utils.py:108-110 | `>>> user extra` still opens a user message. |
| Transcript.ScanMessages | py/vim_ai.py:110-127 | The scanning loop yields exactly `Blocks(lines)`. |
| Transcript.BlocksSnoc | py/vim_ai.py:112-127 | The front-defined `Blocks` grows by one scan step per line. It links the loop to the specification. |
| Transcript.BlocksEmptyIff | py/vim_ai.py:112-127 | There are no messages exactly when no line is a marker. |
| Transcript.BlocksFollowMarkers | py/vim_ai.py:112-124 | One message per marker line, none dropped, in source order, with that marker's role. |
| Transcript.PositionsCount | py/vim_ai.py:112-124 | There are exactly as many messages as marker lines. |
| Transcript.PositionsIncrease | py/vim_ai.py:112-124 | The marker positions are listed in strictly increasing order, which is buffer order. |
| Transcript.MarkersHavePositions | py/vim_ai.py:112-124 | Every marker line's index is among the marker positions, so no marker is skipped. |
| Transcript.NoMarkersCons | py/vim_ai.py:112-127 | A buffer has no markers exactly when its first line and its rest have none; a non-marker first line joins the preamble run. |
| Transcript.BlockAtMarkerCons | py/vim_ai.py:112-124 | Putting a line in front moves every marker's position up by one. A block's index moves up by one exactly when that line is a marker itself. |
| Transcript.BlockAtMarker | py/vim_ai.py:112-127 | Message k has the role of the k-th marker line and holds the lines after it, up to the next marker, each preceded by a newline. |
| Transcript.PreambleIgnored | py/vim_ai.py:125-126 | Lines before the first marker contribute nothing. |
| Transcript.BodyIsRun | py/vim_ai.py:112-127 | A message body is the run of non-marker lines up to the next marker or the end. |
| Transcript.FinishMessage | py/vim_ai.py:130-161 | One pass of the finishing loop, with the rewriting and reading loops inside it, computes exactly `Finish` of the message. |
| Transcript.FinishMessages | py/vim_ai.py:129-161 | The finishing loop rewrites every message in order, and the first failing file read aborts the whole parse. |
| Transcript.ParseChatMessages | py/vim_ai.py:109-163 | The parse is the lines, scanned, then finished. |
| Transcript.FinishRole | py/vim_ai.py:133-134 | A finished message keeps its role, except that include becomes user. |
| Transcript.FinishPlain | py/vim_ai.py:129-131 | A system, user or assistant message is only stripped. |
| Transcript.ParsedRoles | py/vim_ai.py:112-134 | A successful parse has one message per marker line, in order; each role is system, user or assistant, never include. |
| Transcript.ParsedContent | py/vim_ai.py:112-131 | A message from a non-include marker holds the stripped newline-joined lines between its marker and the next. |
| Transcript.ParsedInclude | py/vim_ai.py:133-161 | A message from an include marker becomes a user message holding the expansion of the stripped lines between its marker and the next; the expansion succeeded. |
| Transcript.ParseFailsIff | py/vim_ai.py:129-161 | The parse fails exactly when the expansion of some include message fails. |
| Transcript.ParseFirstFailure | py/vim_ai.py:129-161 | When message k's expansion is the first to fail, the parse fails with its error. |
| Transcript.NoIncludeNeverFails | py/vim_ai.py:129-134 | A buffer without include markers always parses. |
| Transcript.TwoTurnSplit | py/utils.py:102 | `Split(_, '\n')` of the two-turn buffer, for any single-line question and answer, is exactly its five lines. |
| Transcript.TwoTurnLines | py/utils.py:102 | `splitlines()` (`SplitLines`) of the same buffer, with a non-empty answer so that it does not end in a newline, is the same five lines. |
| Transcript.TwoTurnBlocks | py/utils.py:104-119 | Those lines scan into a user block and an assistant block. |
| Transcript.TwoTurnExample | py/utils.py:101-123 | `>>> user\nQ\n\n<<< assistant\nA` parses to [user Q, assistant A] for any one-line trimmed Q and A that are not markers. |
| Wrappers.MapAllFirstFailure | py/vim_ai.py:129-161 | When the first failing message is at k, the parse fails with k's error. |
| Wrappers.MapAllPointwise | py/vim_ai.py:129-131 | A whole pass succeeds exactly when each message does; message k of the result is message k finished. |
| Includes.Resolve | py/vim_ai.py:139-143 | Defines the resolved path: `~` expanded, then joined to `pwd` unless absolute. Characterised by RewrittenLayout. |
| Includes.Slot | py/vim_ai.py:139-146 | Defines what stays in an entry's place: None for a resolved `**` path, the resolved path otherwise. Characterised by RewrittenLayout. |
| Includes.RewrittenPaths | py/vim_ai.py:135-147 | Defines the list after the rewriting loop. Characterised by ExpandIncludePaths, RewrittenLayout, NoGlobNoTail and GlobTailFromGlobs. |
| Includes.Section | py/vim_ai.py:149-161 | Defines what one slot adds, or the OSError it raises. Characterised by SectionShape and ContentStep. |
| Includes.IncludeContent | py/vim_ai.py:149-161 | Defines the content built from the list. Characterised by ReadIncludedFiles, IncludeContentIsRendered and FailureSticks. |
| Includes.ExpandInclude | py/vim_ai.py:135-161 | Defines the whole expansion of an include message. Characterised by EmptyGlob, SingleFile and ParsedInclude. |
| Includes.ExpandIncludePaths | py/vim_ai.py:138-147 | The rewriting loop gives one slot per original entry, then every glob match. |
| Includes.RewrittenLayout | py/vim_ai.py:138-147 | The slot is None exactly for a resolved entry holding `**`; otherwise it is the resolved path. The glob matches follow verbatim after all original entries. |
| Includes.NoGlobNoTail | py/vim_ai.py:138-147 | Without `**` entries nothing is appended and nothing is dropped. |
| Includes.GlobTailFromGlobs | py/vim_ai.py:145-147 | Every appended path is a glob match of some `**` entry. |
| Includes.GlobTailStep | py/vim_ai.py:145-147 | Each iteration appends exactly its own entry's matches. |
| Includes.ReadIncludedFiles | py/vim_ai.py:149-161 | The reading loop builds exactly `IncludeContent`; a file that cannot be opened aborts it. |
| Includes.ContentStep | py/vim_ai.py:149-161 | Each iteration adds its own slot's section, or fails with it. |
| Includes.FailureSticks | py/vim_ai.py:156-161 | Once reading fails, the whole expansion fails the same way. |
| Includes.IncludeContentIsRendered | py/utils.py:141-155 | Expansion fails exactly when a read path cannot be opened. Otherwise it is each read path's header and text in list order, with skipped None slots and directories. |
| Includes.SectionShape | py/utils.py:148-155 | A text file and an undecodable file both give a header and a body; the body of an undecodable file is the placeholder. |
| Includes.EmptyGlob | py/vim_ai.py:138-161 | A lone `**` entry with no matches gives empty content. |
| Includes.SingleFile | py/vim_ai.py:138-161 | A lone readable file gives `\n\n==> path <==\n` and its text. |
| Render.NeedInsertBeforeCursor | py/vim_ai.py:62-72 | False whenever `is_selection` is not equal to False. A ValueError exactly when the position is not a two-element list. True exactly when the selection starts in column 1. |
| Render.Editor.RenderTextChunks | py/vim_ai.py:75-94 | The log gains the typing of the chunks from the first non-blank one on, then the empty-response notice if the full text is blank. It returns their concatenation. A malformed position changes nothing. |
| Render.DropLeadingBlankSnoc | py/vim_ai.py:80-82 | Adding a chunk: a blank chunk before typing has started is skipped, any other chunk is typed. |
| Render.TypingSnoc | py/vim_ai.py:83-89 | Each typed chunk issues its insert-or-append, undojoin and redraw. Only the first one may be an insert. |
| Render.SkipsBlankPrefix | py/vim_ai.py:79-82 | Typing starts after a blank prefix of the chunks, at the first non-blank chunk. |
| Render.KeepsTypingAfterStart | py/utils.py:71-82 | Once a non-blank chunk has been typed, every later chunk is typed, blank or not. |
| Render.AtMostOneInsert | py/vim_ai.py:83-87 | Three commands per chunk. At most one insert, only for the first chunk and only when inserting before the cursor. |
| Render.TypingTypesText | py/vim_ai.py:83-90 | What is typed into the buffer is exactly the full text. |
| Render.TypedTextAppend | py/vim_ai.py:83-90 | Typed text distributes over the log. |
| Render.ChunkTypesItsText | py/vim_ai.py:83-89 | Typing one chunk, by insert or append, enters exactly that chunk's text. |
| Render.VisibleHead | py/vim_ai.py:91 | Chunks led by a non-blank chunk never concatenate to blank text. |
| Render.EmptyResponseIffAllBlank | py/vim_ai.py:91-94 | The empty-response notice is shown exactly when every chunk is blank. |
| Render.TwoBlankThenText | py/vim_ai.py:79-91 | Two blank chunks, then a non-blank one and any fourth: the blank ones are skipped and the full text is not blank. |
| Render.HelloWorldExample | py/vim_ai.py:76-94 | `["", "\n", "hello", " world"]` types `hello world` and shows no notice. |
| Errors.HttpMessage | py/vim_ai.py:192-199 | Defines the HTTP error message. Characterised by HttpHints, HintedMessages and HttpNoHint. |
| Errors.HandleErrorVimAi | py/vim_ai.py:184-202 | Defines vim_ai.py's handling. Characterised by FixedMessages, HttpAlwaysReported, NvimInterruptIsCancellation and ReraiseIffUnclassified. |
| Errors.HandleErrorUtils | py/utils.py:180-201 | Defines utils.py's handling. Characterised by VariantsAgreeExceptKnownError, KnownErrorReported and ReraiseIffUnclassified. |
| Errors.HttpHints | py/vim_ai.py:193-202 | 401 gets only the API-key hint, 404 only the access hint, 429 only the billing hint. |
| Errors.HintedMessages | py/vim_ai.py:193-199 | The 401, 404 and 429 messages are `OpenAI: HTTPError ` and the status digits, followed by exactly that status's hint. |
| Errors.HttpNoHint | py/vim_ai.py:194-202 | Any other status is reported by its number alone. |
| Errors.HttpAlwaysReported | py/vim_ai.py:193-202 | An HTTP error is reported, never re-raised, in both copies. Its message names the status. |
| Errors.NoKeyboardInterruptInHttpText | py/vim_ai.py:188-189 | An HTTP error is not mistaken for an interrupt unless its own message says so. |
| Errors.FixedMessages | py/vim_ai.py:189-192 | Interrupts and socket timeouts map to their fixed messages in both copies. |
| Errors.TimeoutTextIsNotInterrupt | py/vim_ai.py:188-192 | A timeout is not taken for an interrupt. |
| Errors.NvimInterruptIsCancellation | py/vim_ai.py:187-190 | An editor error whose text holds `Keyboard interrupt` is reported as a cancellation. |
| Errors.ReraiseIffUnclassified | py/utils.py:180-201 | An error is re-raised exactly when it is none of interrupt, timeout, HTTP error, or (in utils.py) KnownError. |
| Errors.VariantsAgreeExceptKnownError | py/utils.py:198-199 | The two copies agree on every error but KnownError. |
| Errors.KnownErrorReported | py/utils.py:198-199 | utils.py reports a KnownError by its own text; vim_ai.py re-raises it. |
| ChatWindow.PrependsUserMarker | py/utils.py:211-213 | Defines the top-of-file test: no buffer line equals `>>> user`. Characterised by PreparedHasUserLine. |
| ChatWindow.Prepared | py/utils.py:213-227 | Defines the buffer after the top-of-file step (an assumed editor effect, see Left out). Characterised by PreparedHasUserLine. |
| ChatWindow.FileContent | py/utils.py:233 | Defines the trimmed, newline-joined buffer text. Characterised by UserLineSurvivesStrip, which states it on the definition, and AppendDecisionNeverFails. |
| ChatWindow.RoleMatch | py/utils.py:234-236 | Defines the group the pattern captures on one line. Characterised by GroupIsUserIff and IncludeLinesDoNotCount. |
| ChatWindow.RoleLines | py/utils.py:234-236 | Defines `role_lines`. Characterised by NoMatchesIff and LastRoleDecides. |
| ChatWindow.LastRoleDecision | py/utils.py:234-237 | Defines the append decision on a list of lines. Characterised by MatchesDecide. |
| ChatWindow.AppendsUserBlock | py/utils.py:233-237 | Defines the append decision on the buffer text. Characterised by AppendsIffLastRoleNotUser and AppendDecisionNeverFails. |
| ChatWindow.PreparedHasUserLine | py/utils.py:211-227 | After the top-of-file step the buffer has a `>>> user` line. When it already had one, the buffer is unchanged. |
| ChatWindow.NoMatchesIff | py/utils.py:234-236 | The match list is empty exactly when no line is a role line. |
| ChatWindow.LastRoleDecides | py/utils.py:234-236 | When there are matches, the last one is the group captured from the last role line. |
| ChatWindow.GroupIsUserIff | py/utils.py:234-237 | The group captured from a role line starts with `>>> user` exactly when the line does. |
| ChatWindow.LastMatchIsLastLine | py/utils.py:234-237 | The last match is a user marker exactly when the last role line starts with `>>> user`. |
| ChatWindow.MatchesDecide | py/utils.py:234-237 | On any list of lines: IndexError exactly when no line is a role line; otherwise append exactly when the last role line is not a user line. |
| ChatWindow.AppendsIffLastRoleNotUser | py/utils.py:233-240 | The decision raises IndexError exactly when no line is a role line. Otherwise it appends exactly when the last role line is not a user line. |
| ChatWindow.IncludeLinesDoNotCount | py/utils.py:234-236 | Include marker lines are not role lines. |
| Text.SplitJoin | py/utils.py:102 | Joining separator-free parts and splitting again gives back the parts. |
| ChatWindow.JoinAround | py/utils.py:233 | A buffer line sits in the joined text at the start or right after a newline. |
| ChatWindow.StripKeepsWord | py/utils.py:233 | Trimming the buffer text keeps a non-blank word whole, with what stood just before it on its line. |
| ChatWindow.LineStartingWith | py/utils.py:234-236 | A word at the start of the text or after a newline starts one of its lines. |
| ChatWindow.UserLineInText | py/utils.py:233-236 | Trimmed text with `>>> user` at a line start still has a line starting with it. |
| ChatWindow.UserLineSurvivesStrip | py/utils.py:233-236 | A buffer with a `>>> user` line keeps one after it is joined and trimmed. |
| ChatWindow.UserLineIsRoleLine | py/utils.py:234-237 | A line starting with `>>> user` makes the match list non-empty. |
| ChatWindow.AppendDecisionNeverFails | py/utils.py:211-240 | After the top-of-file step, `role_lines[-1]` never raises. |
| Settings.CurrentEffects | py/vim_ai.py:39-42 | No effect is empty and no effect holds a comma. |
| Settings.NonEmpty | py/vim_ai.py:42 | The kept parts are exactly the non-empty parts. |
| Settings.EffectsKeepText | py/vim_ai.py:39-42 | The effects, concatenated in order, are the setting with its commas removed. |
| Settings.ConcatSplit | py/vim_ai.py:42 | The comma-separated parts, concatenated, are the text without commas. |
| Settings.ConcatNonEmpty | py/vim_ai.py:42 | Dropping the empty parts does not change their concatenation. |
| Settings.SingleEffect | py/vim_ai.py:39-42 | A setting without commas names itself, or nothing when it is empty. |

## Left out

- Editor commands are entries of a command log. Except for `Prepared` (below), the model does not capture what they do to the buffer, nor `print_info_message`'s echo details. Both come from the editor.
- ChatWindow.Prepared: assumes what the editor does with `normal! gg`, `normal! O` and `normal! i>>> user\n`, namely that the buffer becomes `[">>> user", ""]` followed by the old lines. `PreparedHasUserLine` and `AppendDecisionNeverFails` rest on this assumed effect. The editor itself is not modelled.
- Transcript.Parse: `pwd` is a free parameter. The model does not capture that the source fixes it at module load, through the default argument `config.pwd`, so a later change of Vim's working directory does not reach include resolution.
- The prompt typing at the end of `initialize_chat_window`, and its `normal!`, `redraw` and undo-break commands, are left out. They only drive the editor.
- `LolmaxBackend` and `LoremIpsumBackend` are left out. They are network and random text. So are the backend defaults that differ between the two copies.
- The `Config` properties other than `current_effects` are left out: they only read editor globals. The effects setting is a parameter.
- `printDebug`, `vim_break_undo_sequence` and `clear_echo_message` are editor or file I/O.
- `do_chat`, `do_complete` and `VimAI.chat`/`complete` only orchestrate host calls and exception handlers.
- Text.IsSpace: only ASCII whitespace. Python's `str.strip` also removes Unicode whitespace, and Vim's `trim()` uses its own mask. Both are approximated by this set.
- Text.SplitLines: splits only on `\n`. Python's `splitlines` also breaks at `\r`, `\r\n` and other boundaries.
- Render.EqualsFalse: covers False, 0 and other Python values. `0.0 == False` (a float) is not modelled.
- Render.Editor.RenderTextChunks: chunks are a finite sequence. An exception raised by the chunk stream in the middle of the loop is not modelled.
- Render.Editor.RenderTextChunks returns `full_text`. The source keeps it local; returning it lets the contract talk about it.
- Includes: `expanduser`, `isabs`, `join`, `glob`, `isdir` and file reads are uninterpreted functions of a `Host` value. Reading is one call with three outcomes: text, undecodable, or an OSError that propagates.
- Errors.ErrorText: `str()` of each exception is modelled only as far as the interrupt test needs.

## Findings

None. The model follows the code. In `handle_completion_error` a 401 gets its hint from a separate `if`, and 404/429 from an `if`/`elif` pair. No status is in both, so no message gets two hints; `Errors.HttpHints` states this.
