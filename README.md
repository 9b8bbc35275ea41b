# CurriculumGen chat core in Dafny

CurriculumGen is a Flask web service that forwards a teacher's text, either typed or taken
from an uploaded PDF or DOCX file, to a remote language model. It keeps one process-wide
conversation history and sometimes turns the model's answer into a table. This project
models the parts of `app.py` that carry logic of their own:

- **Table extractor** (`extract_table`). The response is trimmed and split into lines.
  The lines that hold a `|` and do not mention "customize" or "spreadsheet" (in lower
  case) are kept. No kept line means no table. Otherwise the first kept line gives the
  headers and every later kept line gives a row, each split on every `|` and trimmed.
  Rows may be ragged. The function is `TableExtraction.ParseTable`. The imperative
  `TableExtraction.ExtractTable` keeps the source's filtering loop and is proved equal to it.
- **File-type check** (`allowed_file`, `FileTypes.AllowedFile`). The name must contain a
  `.`, and the text after the last `.`, lower-cased, must be `pdf` or `docx`. This is the
  same as the lower-cased name ending in `.pdf` or `.docx`.
- **Table trigger** (inside `chat`, `ChatSession.TableRequested`). Extraction is attempted
  when the lower-cased input says "timetable" or "table form", or the lower-cased answer
  says "tabular". A failed extraction falls back to the plain answer.
- **Conversation history and the two handlers** (`conversation_history`, `chat`,
  `upload_file`). The class `ChatSession.ConversationStore` holds the history as a
  `seq<Turn>`. Its methods `Chat` and `Upload` follow the handlers' early returns and
  appends. Each method is proved to leave the reply and history that the pure
  functions `ChatStep` and `UploadStep` describe. The lemmas are stated about those
  functions.

The outside world is abstracted as follows:

- The model service is a `Gateway`. It is a function from the history (which already holds
  the new user turn) and the message to `Produced(text)` or `Raised(detail)`.
- The PDF and DOCX readers are a `Reader` of the same kind. Each upload request carries
  its own `Reader`, because each request brings its own file.
- The connectivity probe `net_check` is a boolean argument.
- `secure_filename` is replaced by a `savedName` argument.

Python's `str.strip()` and `str.lower()` are modelled on ASCII only. Whitespace is space,
`\t`, `\n`, `\v`, `\f`, `\r` and 0x1C-0x1F, the ASCII characters `str.isspace` accepts.
Lower-casing maps `A`-`Z` to `a`-`z` and leaves every other character alone.

Files: `text.dfy` (string operations), `table.dfy` (extractor and worked examples),
`filetypes.dfy` (`allowed_file`), `chat.dfy` (trigger, history, handlers).

Behaviour of `app.py` that the model makes explicit:

- History turns do not always alternate. When the gateway raises after the user turn was
  appended (app.py:131, 157-158), that user turn stays without a model turn after it, and
  the next answered turn puts two user turns side by side (`AlternationLostAfterFailure`).
  Every model turn still directly follows a user turn (`ReplayKeepsOrder`).
- An appended turn can be just `"\n"`. The trimmed answer plus `"\n"` is appended even
  when the answer is empty (app.py:139), and an upload appends the untrimmed document text
  plus `"\n"` with no emptiness check (app.py:194).
- The whole response is trimmed before it is split into lines (app.py:69).
- `allowed_file` ignores case, but the reader is chosen by a case-sensitive
  `endswith('.pdf')` / `endswith('.docx')` on the saved name (app.py:183-188). A file saved
  as `notes.PDF` is accepted by the type check and then answered with
  "Unsupported file format." (`UploadUnsupported`, `UpperCaseUploadUnsupported`).

## Model

| member | source | states |
|---|---|---|
| `Text.Strip` | app.py:69 | The result has no whitespace at either end. |
| `Text.StripIsSlice` | app.py:69 | The result is a slice of the input, and everything cut from its start and end is whitespace. |
| `Text.StripUnique` | app.py:69 | Stripping has exactly one result: any trimmed slice left after cutting whitespace-only ends is `Strip(s)`. |
| `Text.Lower` | app.py:74 | Same length as the input; each character is lower-cased on its own (ASCII). |
| `Text.LowerIdempotent` | app.py:143-145 | Lower-casing twice is the same as lower-casing once. |
| `Text.ContainsIff` | app.py:74 | `Contains(s, pat)` (Python `pat in s`) holds exactly when `pat` occurs in `s` at some index. |
| `Text.ContainsLower` | app.py:143-145 | If `pat` occurs in `s`, the lower-cased `pat` occurs in the lower-cased `s`. |
| `Text.Split` | app.py:69 | `split(sep)` yields one more field than there are separators, and no field holds the separator. |
| `Text.JoinSplit` | app.py:69 | Joining the fields of a split with the separator gives back the original string. |
| `Text.SplitJoin` | app.py:80 | Splitting a join of separator-free fields gives back exactly those fields. |
| `Text.AfterLast` | app.py:90 | `rsplit(sep, 1)[1]` is the suffix after a separator, and it holds no separator, so that separator is the last one. |
| `TableExtraction.Kept` | app.py:72-75 | The filtered lines are no more than the input lines, and every one of them passes `KeepLine`. |
| `TableExtraction.Fields` | app.py:80-82 | A line splits into one more field than it has `\|`s; each field is the trimmed k-th piece, with no edge whitespace and no `\|`. |
| `TableExtraction.RowsOf` | app.py:81-84 | One row per line; each row has one more cell than its line has `\|`s, and every cell is trimmed. |
| `TableExtraction.ParseTable` | app.py:67-86 | No table exactly when no line is kept. On success there is one row fewer than kept lines, and one more header than the first kept line has `\|`s. |
| `TableExtraction.ExtractTable` | app.py:67-86 | The imperative filtering loop returns exactly `ParseTable` of the same text. |
| `TableExtraction.KeptAppend` | app.py:72-75 | The filter distributes over concatenation, so kept lines stay in input order. |
| `TableExtraction.KeptMembers` | app.py:72-75 | A line is kept exactly when it is an input line holding `\|` that mentions neither "customize" nor "spreadsheet" in lower case. |
| `TableExtraction.NoTableIff` | app.py:69-78 | Extraction fails exactly when no line of the trimmed text passes the filter. |
| `TableExtraction.NoPipeNoTable` | app.py:74-78 | Text with no `\|` at all never yields a table. |
| `TableExtraction.TableLinesFiltered` | app.py:72-75 | Every kept line is a line of the trimmed text, holds a `\|` and mentions neither "customize" nor "spreadsheet" in lower case. |
| `TableExtraction.ExtractedShape` | app.py:80-86 | On success the headers are the fields of the first kept line, with one more than its `\|` count. There is one row per later kept line, in order, with one more cell than that line's `\|` count. Every header and cell is trimmed. |
| `TableExamples.ExampleTable` | app.py:67-86 | `"A \| B\n1 \| 2\n3 \| 4"` gives headers `A`, `B` and rows `1, 2` and `3, 4`. |
| `TableExamples.RaggedRowsPassThrough` | app.py:80-84 | `"a\|b\n1\|2\|3"` gives two headers and a row of three cells: row lengths are not checked. |
| `TableExamples.InstructionLineSkipped` | app.py:74 | A `\|` line saying "Customize" is dropped, so the next kept line becomes the header line. |
| `FileTypes.AllowedFile` | app.py:89-90 | A name is accepted exactly when its lower-cased form ends in `.pdf` or `.docx`. |
| `FileTypes.ExtensionBySuffix` | app.py:90 | For a dot-free word `ext`, the lower-cased text after the last `.` is `ext` exactly when the lower-cased name ends in `.` + `ext`. |
| `FileTypes.AllowedFileIff` | app.py:89-90 | A name is accepted exactly when it has a last `.` and the lower-cased text after it is `pdf` or `docx`. |
| `FileTypes.AllowedExtension` | app.py:89-90 | For `stem + "." + ext` with no dot in `ext`, acceptance depends only on `Lower(ext)`, whatever the stem. |
| `FileTypes.NoDotRefused` | app.py:90 | A name without a `.` is refused, even one spelled `pdf`. |
| `FileTypes.UpperCaseExtensionAccepted` | app.py:90 | `notes.PDF` is accepted: the extension is lower-cased first. |
| `FileTypes.LastExtensionAccepted` | app.py:90 | `a.b.docx` is accepted: only the text after the last dot counts. |
| `FileTypes.OtherExtensionsRefused` | app.py:15 | `x.txt` and `report.pdf.zip` are refused. |
| `ChatSession.InputTriggers` | app.py:142-144 | Any input containing a word that lower-cases to "timetable" or "table form" triggers extraction, whatever the answer. |
| `ChatSession.ResponseTriggers` | app.py:145 | Any answer containing a word that lower-cases to "tabular" triggers extraction, whatever the input. |
| `ChatSession.NoKeywordNoTrigger` | app.py:142-155 | When neither lower-cased text contains its keywords, no extraction is attempted and the reply is the plain answer with no table. |
| `ChatSession.TriggerIgnoresCase` | app.py:143-145 | Lower-casing the input and the answer before the test does not change the trigger. |
| `ChatSession.TableReply` | app.py:141-155 | The reply text is the answer. A table is attached exactly when the trigger fired and extraction succeeded, and it is the extracted table. Otherwise the plain answer is the fallback. |
| `ChatSession.Converse` | app.py:131-139 | One exchange keeps the old history as a prefix and appends the user turn (message + `"\n"`). When the gateway raises, the exchange fails with that same error and adds nothing more. When the gateway answers, the result is the trimmed answer, and that answer + `"\n"` is appended as the model turn. |
| `ChatSession.ConverseAnswered` | app.py:131-139 | An answered exchange appends exactly the user turn and then the model turn with the trimmed answer. |
| `ChatSession.ConverseKeepsOrder` | app.py:131-139 | An exchange keeps every model turn right after a user turn, and keeps strict alternation when the gateway answers. |
| `ChatSession.ChatStep` | app.py:116-158 | A chat request keeps the old history as a prefix and adds at most two turns; blank input or a failed probe adds none. |
| `ChatSession.ChatRefusesEarly` | app.py:121-127 | Blank (after trimming) input gets "Input cannot be empty." and a failed probe gets the network message. Both leave the history unchanged and do not depend on the gateway. |
| `ChatSession.ChatAnswered` | app.py:129-155 | An answered chat turn appends exactly the user turn and then the model turn. The reply is the trimmed answer with the table policy applied. |
| `ChatSession.ChatGatewayFailed` | app.py:129-158 | When the gateway raises, the reply is `"Error: "` + its message, and the history keeps the new user turn with no model turn. |
| `ChatSession.ChatTableIsExtracted` | app.py:141-155 | Any table in a chat reply was requested by the trigger and is the extraction of the reply text. |
| `ChatSession.DocumentKindOf` | app.py:183-188 | A reader is chosen exactly when the saved name ends in `.pdf` or `.docx`, the PDF reader exactly for `.pdf`; any name with a reader also passes `AllowedFile`. |
| `ChatSession.UploadStep` | app.py:162-204 | An upload keeps the old history as a prefix, adds at most two turns, and never returns a table. |
| `ChatSession.UploadRefusesEarly` | app.py:168-204 | An empty name or a refused type gets its fixed message, leaves the history unchanged, and does not depend on the reader or the gateway. |
| `ChatSession.UploadConverses` | app.py:182-200 | An accepted file saved as `.pdf` or `.docx` is read with the matching reader, and its untrimmed text goes through one exchange. The reply is the answer or `"Error processing file: "` + the message. |
| `ChatSession.UploadReadFailed` | app.py:182-202 | When the reader raises, the reply is `"Error processing file: "` + its message and nothing is appended. |
| `ChatSession.UploadUnsupported` | app.py:182-188 | An accepted file whose saved name ends in neither `.pdf` nor `.docx` (case-sensitive) gets "Unsupported file format.", whatever the reader and the gateway, and the history is unchanged. |
| `ChatSession.UpperCaseUploadUnsupported` | app.py:171-188 | `notes.PDF` passes `allowed_file`, but saved under that name it gets "Unsupported file format.", with no reading and no history change. |
| `ChatSession.ChatKeepsOrder` | app.py:116-158 | A chat request keeps the order of the history: prefix kept, at most two turns, model turns after user turns, alternation kept unless a lone user turn is added, and a lone user turn comes with no table. |
| `ChatSession.UploadKeepsOrder` | app.py:162-204 | The same order facts hold for an upload request. |
| `ChatSession.ServeKeepsOrder` | app.py:116-204 | Any request, chat or upload, keeps the order of the history in that sense. |
| `ChatSession.ReplayKeepsOrder` | app.py:55 | Over any sequence of requests, each upload with its own reader, the history only grows at its end, and every model turn follows a user turn. |
| `ChatSession.AlternationLostAfterFailure` | app.py:129-158 | From an empty history, a failed chat turn adds one lone user turn. A following answered turn gives three turns whose first two are both user turns, so the history no longer alternates: strict alternation is not an invariant of the code. |
| `ChatSession.ConversationStore.constructor` | app.py:55 | The history starts empty. |
| `ChatSession.ConversationStore.Ask` | app.py:131-139 | Appends the user turn, calls the gateway with the new history, and on an answer appends the trimmed answer; this matches `Converse`. |
| `ChatSession.ConversationStore.Chat` | app.py:116-158 | The reply and new history are those of `ChatStep`, with the table built by `ExtractTable` only when the trigger fires. |
| `ChatSession.ConversationStore.Upload` | app.py:162-204 | The reply and new history are those of `UploadStep`. |

## Left out

- Flask routing, `request.get_json`, `jsonify` and the `index` page (app.py:107-120, 161-166). `Chat` takes the `user_input` string; a missing key is the empty string the source defaults to. The "No file part in the request." check is request parsing and is not modelled.
- `net_check` (app.py:58-64) opens a socket. It is the boolean argument `online`.
- The Gemini client, its configuration, sampling parameters and safety settings (app.py:22-51). `start_chat`/`send_message`/`response.text` (app.py:134-136, 195-197) are the `Gateway` function. An exception anywhere in that call is its `Raised` outcome.
- PDF and DOCX text extraction (app.py:93-104) are the `Reader` function.
- `secure_filename`, `os.makedirs`, `file.save` and `os.remove` (app.py:172-191). `savedName` stands for the sanitised name. The scratch file on disk is not modelled, so it is not shown that the file is left behind on the "Unsupported file format." and reader-failure paths.
- Concurrent requests sharing the global history. The model has one sequential caller.
- Unicode: whitespace and case are ASCII only. A non-ASCII character counts as non-space and is not lower-cased (Python would fold, for example, `"É"`).
- Exceptions the handlers could raise outside the gateway and reader calls (for example in `jsonify`) are not modelled. The only error paths are the gateway's and the reader's.
