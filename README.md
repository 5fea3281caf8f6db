# DeepSeek chat client: the reasoning splitters and conversation records

The chat client talks to a local DeepSeek model served by Ollama. The model
writes its reasoning between the literal tags `<think>` and `</think>`
before its answer. The client separates the two in three independent ways,
and this project models each of them:

- **The streaming splitter of the chat page** (`process_streamed_response`):
  - It is a two-state scanner, visible or inside a block, that reads every
    chunk of the streamed response.
  - It appends what it reads to the visible text or to the reasoning text.
  - The state carries over from one chunk to the next, but a tag is only
    recognised when it lies whole inside one chunk.
  - Modules `Chat` (`chat.dfy`) and `Helpers` (`helpers.dfy`).
- **The batch extractor** (`extract_thinking`, `format_message_with_thinking`):
  - It finds every complete `<think>…</think>` block the way the lazy DOTALL
    pattern does.
  - It joins the block contents with line feeds and keeps them when at least
    ten characters remain after stripping.
  - It removes the blocks from the answer, collapses blank-line runs and
    strips.
  - Module `Thinking` (`thinking.dfy`).
- **The accumulate-and-rescan splitter** (`render_thinking_in_realtime`):
  - It appends each chunk to the whole response so far.
  - It takes the stripped contents of the first complete block as the
    reasoning.
  - It takes the response without its complete blocks, stripped, as the
    visible text.
  - Module `StreamThinking` (`stream_thinking.dfy`).

Around the splitters, the project models:

- The conversation store (`Storage`, `storage.dfy`):
  - the file name of a conversation;
  - flattening `{thinking, content}` messages back into tagged text on save;
  - load and delete;
  - the filter, summaries and newest-first sort of the conversation list.
- The JSON values the store handles (`Json`, `json.dfy`).
- The model backend's data shapes (`Ollama` and `Sidebar`, `ollama.dfy`).
- Python's string operations (`Text`, `text.dfy`): `strip`, `find`, `join`.

Two modules relate the parts to each other:

- `Agreement` (`agreement.dfy`) shows that, when no tag straddles two chunks
  and every block is closed, the streaming splitter ends with the batch
  extractor's view of the whole text. That view is the text without its
  blocks, plus the block contents run together.
- `RoundTrip` (`roundtrip.dfy`) shows that a message saved with reasoning is
  recognised again by the batch extractor.

The three splitters are kept apart because they really differ:

| | streaming splitter | batch extractor | rescan splitter |
|---|---|---|---|
| separator between blocks | none | a line feed | only the first block counts |
| unclosed `<think>` | its text goes to the reasoning | left in the answer | left in the visible text |

## Model

| member | source | states |
|---|---|---|
| Text.Strip | ChatBot_DeepSeek/utils/thinking.py:25 | `str.strip()`: the result has no outer whitespace, is no longer than the input, and is empty exactly when the input is all whitespace |
| Text.StripIdempotent | ChatBot_DeepSeek/utils/thinking.py:28-31 | stripping a stripped text changes nothing (the second `strip()` in the length test is redundant) |
| Text.TrimLeft | ChatBot_DeepSeek/utils/thinking.py:39 | the left half of `strip()`: a suffix of the input, only whitespace dropped, starting with a non-space |
| Text.TrimRight | ChatBot_DeepSeek/utils/thinking.py:39 | the right half of `strip()`: a prefix of the input, only whitespace dropped, ending with a non-space |
| Text.Find | ui/chat.py:157 | `str.find(sub, i)` returns -1 or an index at or after `i` where `sub` fits |
| Text.FindSpec | ui/chat.py:157 | the index returned is an occurrence with none before it from `i`; -1 exactly when there is no occurrence from `i` |
| Text.FindIs | ui/chat.py:167 | the first-occurrence characterisation determines the result of `find` |
| Text.FindInPrefix | ui/chat.py:157 | a search of `a + b` that succeeds inside `a` finds what a search of `a` finds |
| Text.FindInSuffix | ui/chat.py:167 | a search of `a + b` from inside `b` is a search of `b`, shifted by `|a|` |
| Text.FindDrop | ui/chat.py:157 | a search from index `i` is a search of the remainder `s[i:]`, shifted by `i` |
| Text.Join | ChatBot_DeepSeek/utils/thinking.py:28 | `sep.join`: no parts give `""`, one part gives that part, and two or more give the first part, the separator, and the join of the rest |
| Text.JoinLength | ChatBot_DeepSeek/utils/thinking.py:28 | the joined text holds every part and one separator fewer than there are parts |
| Helpers.ExtractChunkContent | ChatBot_DeepSeek/utils/helpers.py:41-43 | the chunk's `message.content` exactly when the chunk is truthy and both keys exist, else `None` |
| Helpers.StreamTextPrefix | ui/stream_thinking.py:16-19 | the text accumulated over a prefix of the stream is a prefix of the whole accumulated text |
| Helpers.StreamText | ui/stream_thinking.py:16-19 | the accumulated response: empty for an empty stream, and each chunk only appends to it; StreamTextPrefix extends this to every prefix of the stream |
| Helpers.IndexOf | ChatBot_DeepSeek/utils/helpers.py:29 | `list.index`: a position holding the element, with no earlier one |
| Helpers.GetModelIndex | ChatBot_DeepSeek/utils/helpers.py:29 | the first position of the current model when it is listed, 0 when it is not |
| Helpers.GetModelIndexValid | ChatBot_DeepSeek/utils/helpers.py:29 | for a non-empty list the index is valid, and it designates the current model exactly when that model is listed |
| Helpers.FormatErrorMessage | ChatBot_DeepSeek/utils/helpers.py:55 | the message is `"Error: "`, the class name, `" - "` and the exception text, piece by piece |
| Helpers.SlowTextDisplay | ChatBot_DeepSeek/utils/helpers.py:15-16 | the text comes back unchanged |
| Chat.Scan | ui/chat.py:154-174 | scanning the rest of a chunk only appends to the visible and reasoning texts |
| Chat.ScanUnfold | ui/chat.py:155-174 | one pass of the inner loop: without the awaited tag the whole rest goes to the current channel; otherwise the text before the tag does, the mode flips and the scan resumes after the tag |
| Chat.ScanFrom | ui/chat.py:157-174 | the same pass stated with the loop's own search `content_chunk.find(tag, i)` |
| Chat.OutsideStep | ui/chat.py:155-164 | outside a block, a pass copies up to the next `<think>` (or to the end) into the visible text and, when the tag is found, enters the block |
| Chat.InsideStep | ui/chat.py:165-174 | inside a block, a pass copies up to the next `</think>` (or to the end) into the reasoning and, when the tag is found, leaves the block |
| Chat.OutsidePass | ui/chat.py:155-164 | the loop body outside a block strictly advances `i`, and scanning from the new `i` and state gives what scanning from the old ones gives |
| Chat.InsidePass | ui/chat.py:165-174 | the loop body inside a block strictly advances `i`, and scanning from the new `i` and state gives what scanning from the old ones gives |
| Chat.ScanContent | ui/chat.py:153-174 | the inner loop ends with exactly the state `Scan` gives for the chunk and the state the earlier chunks left |
| Chat.FeedChunk | ui/chat.py:148-174 | one chunk of the outer loop: an invalid chunk leaves the state unchanged; a valid one only appends |
| Chat.ProcessStreamedResponse | ui/chat.py:142-174 | returns the visible and reasoning texts of the state after the whole stream (`Process`) |
| Chat.Process | ui/chat.py:148-174 | the state after the outer loop: the starting state for an empty stream, and each chunk only appends to both texts; StreamAccounts and ChunkingIrrelevant state what is appended |
| Chat.SkippedChunk | ui/chat.py:149-150 | a falsy chunk, or one without `message` or `content`, changes no state |
| Chat.ProcessGrows | ui/chat.py:159-172 | the texts after a prefix of the stream are prefixes of the final texts, so nothing shown live is taken back |
| Chat.ScanAccounts | ui/chat.py:154-174 | every character of a chunk lands in the visible text, the reasoning, or a consumed tag (7 characters per `<think>`, 8 per `</think>`) |
| Chat.ScanAlternates | ui/chat.py:163-173 | the tags the scan consumes alternate: opening tags minus closing tags is 1 when the scan enters a block it does not leave, -1 when it leaves the block it started in, and 0 otherwise |
| Chat.StreamAccounts | ui/chat.py:148-174 | over the whole stream, the received text splits into the two texts plus 7 per `<think>` and 8 per `</think>`; there is one more `<think>` than `</think>` exactly when a block is left open |
| Chat.VisibleWithoutOpenTag | ui/chat.py:157-160 | outside a block, a chunk without a whole `<think>` is copied to the visible text, including any piece of a tag split across chunks |
| Chat.ReasoningWithoutCloseTag | ui/chat.py:167-170 | inside a block, a chunk without a whole `</think>` goes entirely to the reasoning (a nested `<think>` included) and the block stays open, so an unclosed block ends up in `final_thinking` |
| Chat.ScanSplit | ui/chat.py:154-174 | scanning `a` and then `b` is scanning `a + b`, when no tag crosses the seam |
| Chat.ChunkingIrrelevant | ui/chat.py:148-174 | when every tag lies inside one chunk, the result equals that of the whole received text sent as a single chunk |
| Chat.FindAcrossSeam | ui/chat.py:157 | with no tag in `a` and none across the seam, the search of `a + b` resumes in `b` |
| Chat.NoTagAcrossDrop | ui/chat.py:164 | dropping consumed text keeps a tag-free seam tag-free |
| Chat.NoTagAcrossPrefix | ui/chat.py:148-152 | a tag-free seam of a longer text inside a prefix is a tag-free seam of the prefix |
| Thinking.FirstBlock | ChatBot_DeepSeek/utils/thinking.py:19-22 | a block found by the lazy pattern lies within the text, with the closing tag after the opening tag |
| Thinking.FirstBlockSpec | ChatBot_DeepSeek/utils/thinking.py:19-22 | the first match opens at the leftmost `<think>` and closes at the first `</think>` after it; there is no match exactly when no `<think>` is followed by a `</think>` |
| Thinking.Blocks | ChatBot_DeepSeek/utils/thinking.py:19-22 | `re.findall`: no match exactly when there is no complete block, otherwise the first block's contents come first; FirstBlockSpec fixes that block and RemoveAccounts accounts for all the contents |
| Thinking.FirstBlockExtends | ui/stream_thinking.py:22 | the first complete block of a text is the first complete block of every extension |
| Thinking.RemoveBlocks | ChatBot_DeepSeek/utils/thinking.py:35 | removing the blocks never lengthens the text |
| Thinking.RemoveAccounts | ChatBot_DeepSeek/utils/thinking.py:35 | every character is in the result, in a block's contents, or in one of its two tags |
| Thinking.RemoveUnchangedIff | ChatBot_DeepSeek/utils/thinking.py:35 | the text is unchanged exactly when it has no complete block |
| Thinking.NonSpaceStrip | ChatBot_DeepSeek/utils/thinking.py:39 | stripping removes no non-whitespace character |
| Thinking.NonSpaceAppend | ChatBot_DeepSeek/utils/thinking.py:38 | the non-whitespace characters of `a + b` are those of `a` followed by those of `b` |
| Thinking.CollapseBlankLines | ChatBot_DeepSeek/utils/thinking.py:38 | replacing each line feed, whitespace, line feed run by a blank line never lengthens the text; CollapseAroundText, CollapseSingleBreak, CollapseBlankRun and CollapseWithoutNewline together fix its value on every text |
| Thinking.CollapseAroundText | ChatBot_DeepSeek/utils/thinking.py:38 | no match spans a visible character: the collapse of a text is the collapse of each side of one, with that character between |
| Thinking.CollapseSingleBreak | ChatBot_DeepSeek/utils/thinking.py:38 | a line feed with no other line feed in its whitespace run is kept, and so is that whitespace |
| Thinking.CollapseBlankRun | ChatBot_DeepSeek/utils/thinking.py:38 | two line feeds with only whitespace between them become exactly one blank line, the whitespace before and after them kept |
| Thinking.LastNewline | ChatBot_DeepSeek/utils/thinking.py:38 | the greedy `\s*` backtracks to the last line feed of the run: the index of a line feed with none after it, or none at all |
| Thinking.SpaceRun | ChatBot_DeepSeek/utils/thinking.py:38 | the whitespace run `\s*` takes: all whitespace, and followed by a non-space or the end |
| Thinking.CollapseKeepsText | ChatBot_DeepSeek/utils/thinking.py:38 | the collapse only removes whitespace: the non-whitespace characters are unchanged |
| Thinking.CollapseNoBlankRun | ChatBot_DeepSeek/utils/thinking.py:38 | every line feed, whitespace, line feed run is replaced: in the result, two line feeds with only whitespace between them are adjacent |
| Thinking.NoBlankRunStrip | ChatBot_DeepSeek/utils/thinking.py:39 | stripping a text without blank-line runs leaves none |
| Thinking.CollapseWithoutNewline | ChatBot_DeepSeek/utils/thinking.py:38 | a text without line feeds is left as it is |
| Thinking.ExtractThinking | ChatBot_DeepSeek/utils/thinking.py:14-41 | empty text gives `(None, "")`; the answer never has outer whitespace; returned reasoning is the block contents joined by line feeds and stripped, has at least 10 characters and no outer whitespace; with reasoning the answer is the text without its blocks, blank lines collapsed, stripped; without reasoning the answer is the stripped text; reasoning is returned exactly when there is a block and the stripped line-feed join of the blocks has at least 10 characters |
| Thinking.NoCompleteBlock | ChatBot_DeepSeek/utils/thinking.py:24-25 | a text in which no `<think>` is followed by a `</think>` gives `(None, text.strip())`; an unclosed `<think>` stays in the answer |
| Thinking.ExtractKeepsAnswer | ChatBot_DeepSeek/utils/thinking.py:31-39 | with reasoning, the answer holds the visible characters of the text outside its blocks, in order; without it, the visible characters of the whole text |
| Thinking.ExtractSingleBlock | ChatBot_DeepSeek/utils/thinking.py:28-32 | with exactly one block, reasoning is returned exactly when the stripped block has at least 10 characters, and it is that stripped block |
| Thinking.ExtractTwoBlocks | ChatBot_DeepSeek/utils/thinking.py:22-32 | with two blocks, reasoning is returned exactly when their contents joined by a line feed and stripped have at least 10 characters, and it is that text |
| Thinking.ExtractCollapsesBlankLines | ChatBot_DeepSeek/utils/thinking.py:35-39 | with reasoning, the answer holds no blank-line run: two line feeds with only whitespace between them are adjacent |
| Thinking.FormatMessageWithThinking | ChatBot_DeepSeek/utils/thinking.py:53-66 | with reasoning, the reasoning and the cleaned answer; otherwise no reasoning and the original, unstripped message |
| StreamThinking.FirstThinking | ui/stream_thinking.py:22-24 | no outer whitespace; `""` when there is no complete block, otherwise the stripped contents of the first block only |
| StreamThinking.FirstThinkingStable | ui/stream_thinking.py:19-24 | once a complete block has been seen, later chunks never change the reasoning |
| StreamThinking.RenderThinkingInRealtime | ui/stream_thinking.py:11-43 | the visible text is the whole received text without its complete blocks, stripped; the reasoning is the stripped first block, or `""` when none was ever found |
| StreamThinking.NoValidChunk | ui/stream_thinking.py:11-13 | a stream with no valid chunk gives `("", "")` |
| StreamThinking.RescanMatchesBatch | ui/stream_thinking.py:22-36 | with exactly one complete block of at least 10 stripped characters, the rescan splitter and the batch extractor return the same reasoning and answers with the same visible characters |
| Agreement.FirstBlockBySteps | ui/chat.py:157-167 | the lazy pattern's first block is what the splitter's two searches find: the first `<think>`, then the first `</think>` after it |
| Agreement.BatchStep | ChatBot_DeepSeek/utils/thinking.py:22-35 | the batch view of a text splits at its first block: the text before it, its contents, and the batch view of the rest |
| Agreement.BlockAt | ChatBot_DeepSeek/utils/thinking.py:22-35 | the same split stated at the positions the splitter's searches find |
| Agreement.OpenStep | ui/chat.py:157-164 | outside a block, the splitter copies the text before the first `<think>` and continues inside a block right after that tag |
| Agreement.CloseStep | ui/chat.py:167-174 | inside a block, the splitter copies the text before the first `</think>` into the reasoning and continues outside right after that tag |
| Agreement.ScanAgreesWithBatch | ui/chat.py:154-174 | scanning a whole text from the visible mode: ending outside a block, it adds the text without its blocks and the block contents run together; ending inside one, the open tag is in neither text and what follows it went to the reasoning |
| Agreement.StreamAgreesWithBatch | ui/chat.py:148-174 | when no tag straddles two chunks and every block is closed, the splitter's final texts are the batch extractor's block removal and block contents without a separator |
| Json.Get | ChatBot_DeepSeek/services/storage_service.py:37-38 | `dict.get(key, default)`: the entry when the key is present, else the default |
| Json.Truthy | ChatBot_DeepSeek/services/storage_service.py:39 | Python truthiness: `None` is false, and a string, list or dict is true exactly when its `len` is not zero |
| Json.Len | ChatBot_DeepSeek/services/storage_service.py:104 | `len` is defined exactly for strings, lists and dictionaries, and is their number of characters, items or entries |
| Json.PyStr | ChatBot_DeepSeek/services/storage_service.py:40 | the f-string conversion renders a string as itself |
| Storage.FileBase | ChatBot_DeepSeek/services/storage_service.py:16 | the base name is `conversation_`, the id and `.json`, piece by piece |
| Storage.FileName | ChatBot_DeepSeek/services/storage_service.py:14-16 | the path lies directly inside `conversation_history/`, and its base name is the conversation's file name, which passes the listing filter |
| Storage.FileNameInjective | ChatBot_DeepSeek/services/storage_service.py:14-16 | distinct ids never share a file |
| Storage.FileBaseListed | ChatBot_DeepSeek/services/storage_service.py:96 | every conversation's own file passes the list filter |
| Storage.IsConversationFile | ChatBot_DeepSeek/services/storage_service.py:96 | the `conversation_` prefix and `.json` suffix test; FileBaseListed and ConversationFileShape show it accepts exactly the conversation file names |
| Storage.ConversationFileShape | ChatBot_DeepSeek/services/storage_service.py:96 | every accepted name is long enough for both affixes and is the file name of the id between them |
| Storage.FlattenMessage | ChatBot_DeepSeek/services/storage_service.py:35-43 | same keys; every key but `content` unchanged; non-dictionary content copied; dictionary content with truthy `thinking` becomes `<think>thinking</think>`, a blank line and the inner content, with falsy `thinking` the inner content (`None` when absent) |
| Storage.FlattenMessages | ChatBot_DeepSeek/services/storage_service.py:33-43 | one flattened copy per message, same length and order |
| Storage.MessagesValue | ChatBot_DeepSeek/services/storage_service.py:50 | the copies are written as a list of dictionaries, same length and order |
| Storage.ConversationData | ChatBot_DeepSeek/services/storage_service.py:46-51 | the written document has exactly the keys `id`, `last_updated`, `name`, `messages`, holding the id, the time, the name and the copies |
| Storage.SaveConversation | ChatBot_DeepSeek/services/storage_service.py:18-55 | reports success and stores the document built from the flattened copies under the conversation's file; no other file changes |
| Storage.LoadConversation | ChatBot_DeepSeek/services/storage_service.py:60-83 | the `messages` entry of the file; `[]` when the file is missing, unreadable, not a dictionary, or has no `messages` |
| Storage.LoadAfterSave | ChatBot_DeepSeek/services/storage_service.py:46-80 | loading a saved conversation gives back the flattened messages, in order |
| Storage.DeleteConversation | ChatBot_DeepSeek/services/storage_service.py:113-133 | removes exactly the conversation's file, reporting whether it existed |
| Storage.DeleteThenLoad | ChatBot_DeepSeek/services/storage_service.py:125-126 | after a delete the conversation loads as `[]` and a second delete reports `False` |
| Storage.Summarize | ChatBot_DeepSeek/services/storage_service.py:97-106 | a summary exists exactly when the file reads as a dictionary whose `messages` has a length; it carries the filename and the defaults `"unknown"`, `"(unnamed)"`, `"unknown"` and 0 messages |
| Storage.SummariesFiltered | ChatBot_DeepSeek/services/storage_service.py:95-96 | every summary comes from a listed file that passes the `conversation_…json` filter |
| Storage.Summaries | ChatBot_DeepSeek/services/storage_service.py:95-108 | no more summaries than listed files; SummariesFiltered and SummariesComplete say exactly which files contribute one |
| Storage.SummariesComplete | ChatBot_DeepSeek/services/storage_service.py:95-106 | every listed file that passes the filter and can be summarised is summarised |
| Storage.SavedIsListed | ChatBot_DeepSeek/services/storage_service.py:100-106 | in any listing that holds its file, a saved conversation is summarised with its id, name, time and number of messages |
| Storage.StrLeTotal | ChatBot_DeepSeek/services/storage_service.py:110 | any two string keys are ordered one way or the other |
| Storage.StrLe | ChatBot_DeepSeek/services/storage_service.py:110 | Python's string `<=`: lexicographic by code point, and every prefix of a string comes before it; StrLeTotal, StrLeTrans and StrLeAntisymmetric make it a total order |
| Storage.StrLeAntisymmetric | ChatBot_DeepSeek/services/storage_service.py:110 | two strings each ordered before the other are equal |
| Storage.StrLeTrans | ChatBot_DeepSeek/services/storage_service.py:110 | the string order on keys is transitive |
| Storage.InsertDesc | ChatBot_DeepSeek/services/storage_service.py:110 | inserting a summary into a sorted list adds exactly that summary |
| Storage.InsertDescSorted | ChatBot_DeepSeek/services/storage_service.py:110 | inserting into a list sorted newest first keeps it sorted |
| Storage.SortDesc | ChatBot_DeepSeek/services/storage_service.py:110 | the sort is a permutation of its input |
| Storage.SortDescSorted | ChatBot_DeepSeek/services/storage_service.py:110 | the sort orders by `last_updated`, newest first |
| Storage.ListConversations | ChatBot_DeepSeek/services/storage_service.py:85-111 | a result exactly when the keys can be compared; it is then a permutation of the summaries of the listed files, sorted by `last_updated` newest first |
| Ollama.NamesOf | services/ollama_service.py:18-20 | the names in order, one per entry, exactly when every entry is a dictionary with a `name` |
| Ollama.NamesOfEntry | services/ollama_service.py:18 | iterating the `models` entry: a list gives its names; an empty string or dictionary gives none; anything else raises |
| Ollama.GetAvailableModels | services/ollama_service.py:4-30 | the names from a dictionary's `models` or from a list, in order; `["deepseek-r1:14b"]` for any other shape, any failure and any exception |
| Ollama.ListedModelsReported | services/ollama_service.py:17-20 | a dictionary with `models` and a plain list of named models report the same names, one per entry, in order |
| Ollama.ConvertToOllamaMessages | services/ollama_service.py:42-47 | same length and order; content copied; role `"assistant"` kept and every other role becomes `"user"`; a missing key raises |
| Sidebar.ModelOptions | ui/sidebar.py:25-26 | the options contain the default model and extend the reported list by at most one entry; a list that already holds the default model is unchanged |
| Sidebar.SelectedIndexValid | ui/sidebar.py:22-29 | whatever the backend reports, the selected index is a valid option, and it designates the current model exactly when that model is an option |
| RoundTrip.SavedBatch | ChatBot_DeepSeek/utils/thinking.py:19-35 | the saved text of a reasoning without `</think>` and an answer without `<think>` has exactly one block, the reasoning; removing it leaves the blank line and the answer |
| RoundTrip.FlattenedContent | ChatBot_DeepSeek/services/storage_service.py:39-40 | content with a non-empty reasoning string is saved as `<think>reasoning</think>`, a blank line and the answer |
| RoundTrip.ExtractSaved | ChatBot_DeepSeek/utils/thinking.py:14-41 | the batch extractor returns the saved reasoning, stripped, exactly when it has at least 10 characters, and the answer's visible characters are unchanged |
| RoundTrip.SavedReasoningExtracts | ChatBot_DeepSeek/services/storage_service.py:36-40 | a message saved with reasoning is recognised again by the batch extractor: reasoning back stripped when long enough, answer's visible characters kept |

## Left out

- The Streamlit rendering and session state are not modelled: placeholders, `markdown`, avatars, buttons, reruns and `st.session_state`. So the conversation-name update in `load_conversation` and the name that `save_conversation` reads from the session are left out; the name is a parameter.
- `time.sleep` is not modelled; it only affects timing.
- The call to the model backend is not modelled (`ollama.list`, `ollama.chat`, `ollama.generate`, the retries after a `TypeError`, `generate_completion`). What `ollama.list()` returns, or that it raised, is an input.
- File-system and JSON I/O are not modelled. The directory is a map from file name to what `json.load` makes of the file, or `Unreadable`. The listing order of `os.listdir` is an input; so is the current time that `datetime.now().isoformat()` supplies.
- `ensure_storage_dir` is not modelled; it only creates the directory.
- Storage.SaveConversation: always succeeds, because write and serialisation failures are I/O.
- Storage.DeleteConversation: does not model a failing `os.remove`.
- Floating-point values are not modelled: JSON numbers are integers, and temperature settings are left out.
- `None` passed where a string is expected (`extract_thinking(None)`, a `None` chunk content) is not modelled. Chunk contents are strings.
- Whitespace is the ASCII set (space, tab, line feed, carriage return, vertical tab, form feed). Python's `str.strip` and `\s` also treat the ASCII separators `\x1c` to `\x1f` and the Unicode spaces as whitespace.
- Python's regex engine is not modelled. The `<think>(.*?)</think>` match and the `\n\s*\n` substitution are explicit scans that behave as those patterns do.
- Json.PyStr: lists and dictionaries render as the fixed texts `[...]` and `{...}`, not as Python's `repr`; the contract states only that a string renders as itself.
- Storage.ListConversations: treats any non-string `last_updated` key among two or more summaries as the sort's `TypeError`. Python can also sort any other keys that are mutually comparable but not strings.
- Storage.ListConversations: does not prove that the sort is stable. It proves sortedness and permutation only; equal keys keep their listing order.
- Agreement.StreamAgreesWithBatch: relates the splitters only when no tag straddles two chunks and every block is closed; an open block is described by Agreement.ScanAgreesWithBatch.
- The Base64 avatar loading, `config/settings.py` beyond the default model name, and exception printing are not modelled. `ChatBot_DeepSeek/ui/history.py`, `app.py` and `ui/instructions.py` are not part of this model.
