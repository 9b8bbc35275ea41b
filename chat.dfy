/** The request handlers of app.py (`chat` and `upload_file`) and the process-wide
    conversation history they append to.

    The remote model service is a `Gateway`: a function from the history (which already
    holds the new user turn) and the message to the text it generates or the message of
    the exception it raises. The document readers are a `Reader` of the same kind, and the
    connectivity probe `net_check` is a boolean argument. */
module ChatSession {
  import opened Text
  import opened TableExtraction
  import opened FileTypes

  datatype Role = User | Model

  /** One history entry, `{"role": role, "parts": [text]}`. */
  datatype Turn = Turn(role: Role, text: string)

  /** What an external call gives back: its text, or the message of the exception it raised. */
  datatype Outcome = Produced(text: string) | Raised(detail: string)

  datatype Option<T> = None | Some(value: T)

  /** The JSON body of a reply: `{"response": ...}`, with a `"table"` when one was extracted. */
  datatype Reply = Reply(response: string, table: Option<Table>)

  datatype DocumentKind = Pdf | Docx

  type Gateway = (seq<Turn>, string) -> Outcome
  type Reader = (DocumentKind, string) -> Outcome

  const EMPTY_INPUT := "Input cannot be empty."
  const NETWORK_ERROR := "Network error. Please check your connection."
  const CHAT_ERROR_PREFIX := "Error: "
  const NO_FILE_SELECTED := "No file selected."
  const INVALID_FILE_TYPE := "Invalid file type. Only PDF and DOCX are allowed."
  const UNSUPPORTED_FORMAT := "Unsupported file format."
  const FILE_ERROR_PREFIX := "Error processing file: "

  /** The table trigger: the user asked for a "timetable" or "table form", or the model's
      answer says "tabular", ignoring ASCII case. */
  predicate TableRequested(userInput: string, responseText: string) {
    Contains(Lower(userInput), "timetable") || Contains(Lower(userInput), "table form")
      || Contains(Lower(responseText), "tabular")
  }

  /** An input that contains "timetable" or "table form" in any mix of ASCII case asks
      for a table, whatever the answer says. */
  lemma InputTriggers(userInput: string, word: string, responseText: string)
    requires Contains(userInput, word) && (Lower(word) == "timetable" || Lower(word) == "table form")
    ensures TableRequested(userInput, responseText)
  {
    ContainsLower(userInput, word);
  }

  /** An answer that contains "tabular" in any mix of ASCII case asks for a table, whatever
      the input was. */
  lemma ResponseTriggers(userInput: string, responseText: string, word: string)
    requires Contains(responseText, word) && Lower(word) == "tabular"
    ensures TableRequested(userInput, responseText)
  {
    ContainsLower(responseText, word);
  }

  /** Without any of the three keywords no extraction is attempted and no table is sent. */
  lemma NoKeywordNoTrigger(userInput: string, responseText: string)
    requires !Contains(Lower(userInput), "timetable") && !Contains(Lower(userInput), "table form")
    requires !Contains(Lower(responseText), "tabular")
    ensures !TableRequested(userInput, responseText)
    ensures TableReply(userInput, responseText) == Reply(responseText, None)
  {
  }

  /** The trigger ignores ASCII case: lower-casing the input and the answer first changes
      nothing. */
  lemma TriggerIgnoresCase(userInput: string, responseText: string)
    ensures TableRequested(Lower(userInput), Lower(responseText)) == TableRequested(userInput, responseText)
  {
    LowerIdempotent(userInput);
    LowerIdempotent(responseText);
  }

  /** The reply to a chat turn the model answered: the answer, with a table exactly when
      the trigger fired and extraction succeeded; a failed extraction falls back to the
      plain answer. */
  function TableReply(userInput: string, responseText: string): (reply: Reply)
    ensures reply.response == responseText
    ensures reply.table.Some? <==> TableRequested(userInput, responseText) && ParseTable(responseText).Extracted?
    ensures reply.table.Some? ==> reply.table.value == ParseTable(responseText).table
  {
    if TableRequested(userInput, responseText) then
      match ParseTable(responseText)
      case Extracted(t) => Reply(responseText, Some(t))
      case NoTableDetected => Reply(responseText, None)
    else
      Reply(responseText, None)
  }

  /** The answer (or the gateway's error) and the history after one exchange. */
  datatype Exchange = Exchange(answer: Outcome, history: seq<Turn>)

  /** One exchange with the gateway: append the user turn, call the gateway with the
      history, and on an answer append the trimmed answer as the model turn. */
  function Converse(history: seq<Turn>, message: string, gateway: Gateway): (e: Exchange)
    ensures history <= e.history
    ensures |e.history| == |history| + (if e.answer.Produced? then 2 else 1)
    ensures e.history[|history|] == Turn(User, message + "\n")
    ensures e.answer.Raised? <==> gateway(history + [Turn(User, message + "\n")], message).Raised?
    ensures e.answer.Produced? ==>
      IsTrimmed(e.answer.text) && e.history[|history| + 1] == Turn(Model, e.answer.text + "\n")
    ensures var outcome := gateway(history + [Turn(User, message + "\n")], message);
      outcome.Produced? ==> e.answer == Produced(Strip(outcome.text))
    ensures var outcome := gateway(history + [Turn(User, message + "\n")], message);
      outcome.Raised? ==> e.answer == outcome
  {
    var asked := history + [Turn(User, message + "\n")];
    match gateway(asked, message)
    case Raised(detail) => Exchange(Raised(detail), asked)
    case Produced(text) => Exchange(Produced(Strip(text)), asked + [Turn(Model, Strip(text) + "\n")])
  }

  /** A reply together with the history the request leaves behind. */
  datatype Step = Step(reply: Reply, history: seq<Turn>)

  /** The `/chat` handler on a raw `user_input`, with `online` the result of the probe. */
  function ChatStep(history: seq<Turn>, rawInput: string, online: bool, gateway: Gateway): (s: Step)
    ensures history <= s.history && |s.history| <= |history| + 2
    ensures Strip(rawInput) == [] || !online ==> s.history == history
  {
    var userInput := Strip(rawInput);
    if userInput == [] then Step(Reply(EMPTY_INPUT, None), history)
    else if !online then Step(Reply(NETWORK_ERROR, None), history)
    else
      var e := Converse(history, userInput, gateway);
      match e.answer
      case Raised(detail) => Step(Reply(CHAT_ERROR_PREFIX + detail, None), e.history)
      case Produced(responseText) => Step(TableReply(userInput, responseText), e.history)
  }

  /** The reader `upload_file` dispatches to, by the suffix of the saved (sanitised) name;
      this test is case-sensitive, unlike `AllowedFile`. */
  function DocumentKindOf(savedName: string): (kind: Option<DocumentKind>)
    ensures kind.Some? <==> EndsWith(savedName, ".pdf") || EndsWith(savedName, ".docx")
    ensures kind == Some(Pdf) <==> EndsWith(savedName, ".pdf")
    ensures kind.Some? ==> AllowedFile(savedName)
  {
    LowerOfSuffix(savedName, ".pdf");
    LowerOfSuffix(savedName, ".docx");
    if EndsWith(savedName, ".pdf") then Some(Pdf)
    else if EndsWith(savedName, ".docx") then Some(Docx)
    else None
  }

  /** The `/upload` handler for a file named `filename`, saved under `savedName`. */
  function UploadStep(history: seq<Turn>, filename: string, savedName: string, read: Reader, gateway: Gateway): (s: Step)
    ensures history <= s.history && |s.history| <= |history| + 2
    ensures s.reply.table == None
  {
    if filename == [] then Step(Reply(NO_FILE_SELECTED, None), history)
    else if !AllowedFile(filename) then Step(Reply(INVALID_FILE_TYPE, None), history)
    else
      match DocumentKindOf(savedName)
      case None => Step(Reply(UNSUPPORTED_FORMAT, None), history)
      case Some(kind) =>
        match read(kind, savedName)
        case Raised(detail) => Step(Reply(FILE_ERROR_PREFIX + detail, None), history)
        case Produced(content) =>
          var e := Converse(history, content, gateway);
          match e.answer
          case Raised(detail) => Step(Reply(FILE_ERROR_PREFIX + detail, None), e.history)
          case Produced(responseText) => Step(Reply(responseText, None), e.history)
  }

  /** Every model turn directly follows a user turn. */
  predicate ModelFollowsUser(history: seq<Turn>) {
    forall i :: 0 <= i < |history| && history[i].role == Model ==> 0 < i && history[i - 1].role == User
  }

  /** User and model turns strictly alternate, starting with a user turn, in complete pairs. */
  predicate Alternating(history: seq<Turn>) {
    |history| % 2 == 0 &&
    forall i :: 0 <= i < |history| ==> history[i].role == (if i % 2 == 0 then User else Model)
  }

  /** The exchange the gateway answers with `text`. */
  lemma ConverseAnswered(history: seq<Turn>, message: string, gateway: Gateway, text: string)
    requires gateway(history + [Turn(User, message + "\n")], message) == Produced(text)
    ensures Converse(history, message, gateway) ==
      Exchange(Produced(Strip(text)), history + [Turn(User, message + "\n"), Turn(Model, Strip(text) + "\n")])
  {
    var userTurn := Turn(User, message + "\n");
    var modelTurn := Turn(Model, Strip(text) + "\n");
    var e := Converse(history, message, gateway);
    assert e.answer == Produced(Strip(text));
    assert e.history == history + [userTurn] + [modelTurn];
    assert history + [userTurn] + [modelTurn] == history + [userTurn, modelTurn];
  }

  lemma UserTurnKeepsOrder(history: seq<Turn>, text: string)
    requires ModelFollowsUser(history)
    ensures ModelFollowsUser(history + [Turn(User, text)])
  {
    var h := history + [Turn(User, text)];
    forall i | 0 <= i < |h| && h[i].role == Model
      ensures 0 < i && h[i - 1].role == User
    {
      assert i < |history| && h[i] == history[i] && h[i - 1] == history[i - 1];
    }
  }

  lemma PairKeepsOrder(history: seq<Turn>, question: string, answer: string)
    ensures ModelFollowsUser(history) ==> ModelFollowsUser(history + [Turn(User, question), Turn(Model, answer)])
    ensures Alternating(history) ==> Alternating(history + [Turn(User, question), Turn(Model, answer)])
  {
    var h := history + [Turn(User, question), Turn(Model, answer)];
    var n := |history|;
    if ModelFollowsUser(history) {
      forall i | 0 <= i < |h| && h[i].role == Model
        ensures 0 < i && h[i - 1].role == User
      {
        if i < n {
          assert h[i] == history[i] && h[i - 1] == history[i - 1];
        }
      }
    }
    if Alternating(history) {
      forall i | 0 <= i < |h|
        ensures h[i].role == (if i % 2 == 0 then User else Model)
      {
        if i < n {
          assert h[i] == history[i];
        }
      }
    }
  }

  /** An exchange keeps every model turn after a user turn, and keeps strict alternation
      when the gateway answers. */
  lemma ConverseKeepsOrder(history: seq<Turn>, message: string, gateway: Gateway)
    ensures var e := Converse(history, message, gateway);
      (ModelFollowsUser(history) ==> ModelFollowsUser(e.history)) &&
      (Alternating(history) && e.answer.Produced? ==> Alternating(e.history))
  {
    var userTurn := Turn(User, message + "\n");
    match gateway(history + [userTurn], message)
    case Raised(_) =>
      if ModelFollowsUser(history) {
        UserTurnKeepsOrder(history, message + "\n");
      }
    case Produced(text) =>
      PairKeepsOrder(history, message + "\n", Strip(text) + "\n");
      assert history + [userTurn] + [Turn(Model, Strip(text) + "\n")]
        == history + [userTurn, Turn(Model, Strip(text) + "\n")];
  }

  /** Blank input and a failed probe are answered without calling the gateway and leave
      the history as it was. */
  lemma ChatRefusesEarly(history: seq<Turn>, rawInput: string, online: bool, g1: Gateway, g2: Gateway)
    requires Strip(rawInput) == [] || !online
    ensures ChatStep(history, rawInput, online, g1) == ChatStep(history, rawInput, online, g2)
    ensures ChatStep(history, rawInput, online, g1) ==
      Step(Reply(if Strip(rawInput) == [] then EMPTY_INPUT else NETWORK_ERROR, None), history)
  {
  }

  /** A chat turn the gateway answers appends exactly the user turn (the trimmed input and
      a newline) and then the model turn (the trimmed answer and a newline). */
  lemma ChatAnswered(history: seq<Turn>, rawInput: string, gateway: Gateway, text: string)
    requires Strip(rawInput) != []
    requires gateway(history + [Turn(User, Strip(rawInput) + "\n")], Strip(rawInput)) == Produced(text)
    ensures var s := ChatStep(history, rawInput, true, gateway);
      s.history == history + [Turn(User, Strip(rawInput) + "\n"), Turn(Model, Strip(text) + "\n")] &&
      s.reply == TableReply(Strip(rawInput), Strip(text))
  {
    var input := Strip(rawInput);
    ConverseAnswered(history, input, gateway, text);
    var e := Converse(history, input, gateway);
    assert ChatStep(history, rawInput, true, gateway) == Step(TableReply(input, Strip(text)), e.history);
  }

  /** When the gateway raises, the reply carries its message and the user turn stays in
      the history without a model turn after it. */
  lemma ChatGatewayFailed(history: seq<Turn>, rawInput: string, gateway: Gateway, detail: string)
    requires Strip(rawInput) != []
    requires gateway(history + [Turn(User, Strip(rawInput) + "\n")], Strip(rawInput)) == Raised(detail)
    ensures ChatStep(history, rawInput, true, gateway) ==
      Step(Reply(CHAT_ERROR_PREFIX + detail, None), history + [Turn(User, Strip(rawInput) + "\n")])
  {
  }

  /** A chat reply carries a table only when the trigger fired on the trimmed input and
      the reply text, and that table is the extraction of the reply text. */
  lemma ChatTableIsExtracted(history: seq<Turn>, rawInput: string, online: bool, gateway: Gateway)
    ensures var s := ChatStep(history, rawInput, online, gateway);
      s.reply.table.Some? ==>
        TableRequested(Strip(rawInput), s.reply.response) &&
        ParseTable(s.reply.response) == Extracted(s.reply.table.value)
  {
  }

  /** A missing name or a refused file type is answered without reading the file or
      calling the gateway, and leaves the history as it was. */
  lemma UploadRefusesEarly(history: seq<Turn>, filename: string, savedName: string,
                           r1: Reader, r2: Reader, g1: Gateway, g2: Gateway)
    requires filename == [] || !AllowedFile(filename)
    ensures UploadStep(history, filename, savedName, r1, g1) == UploadStep(history, filename, savedName, r2, g2)
    ensures UploadStep(history, filename, savedName, r1, g1) ==
      Step(Reply(if filename == [] then NO_FILE_SELECTED else INVALID_FILE_TYPE, None), history)
  {
  }

  /** A file in an allowed format whose saved name ends in ".pdf" or ".docx" is read with the
      matching reader, and its text (untrimmed) goes through one exchange. */
  lemma UploadConverses(history: seq<Turn>, filename: string, savedName: string, read: Reader,
                        gateway: Gateway, content: string)
    requires filename != [] && AllowedFile(filename)
    requires EndsWith(savedName, ".pdf") || EndsWith(savedName, ".docx")
    requires read(if EndsWith(savedName, ".pdf") then Pdf else Docx, savedName) == Produced(content)
    ensures var s := UploadStep(history, filename, savedName, read, gateway);
      var e := Converse(history, content, gateway);
      s.history == e.history &&
      s.reply.response == (if e.answer.Produced? then e.answer.text else FILE_ERROR_PREFIX + e.answer.detail)
  {
  }

  /** A file whose reader raises is refused with the reader's message; nothing is appended. */
  lemma UploadReadFailed(history: seq<Turn>, filename: string, savedName: string, read: Reader,
                         gateway: Gateway, kind: DocumentKind, detail: string)
    requires filename != [] && AllowedFile(filename)
    requires DocumentKindOf(savedName) == Some(kind) && read(kind, savedName) == Raised(detail)
    ensures UploadStep(history, filename, savedName, read, gateway) ==
      Step(Reply(FILE_ERROR_PREFIX + detail, None), history)
  {
  }

  /** An accepted file whose saved name ends in neither `.pdf` nor `.docx` (compared
      case-sensitively) is answered as unsupported, without reading it or touching the
      history. */
  lemma UploadUnsupported(history: seq<Turn>, filename: string, savedName: string, read: Reader, gateway: Gateway)
    requires filename != [] && AllowedFile(filename)
    requires !EndsWith(savedName, ".pdf") && !EndsWith(savedName, ".docx")
    ensures UploadStep(history, filename, savedName, read, gateway) == Step(Reply(UNSUPPORTED_FORMAT, None), history)
  {
  }

  /** "notes.PDF" passes the type check, but when it is saved under that name the
      case-sensitive dispatch finds no reader and the upload is refused as unsupported. */
  lemma UpperCaseUploadUnsupported(history: seq<Turn>, read: Reader, gateway: Gateway)
    ensures AllowedFile("notes.PDF")
    ensures UploadStep(history, "notes.PDF", "notes.PDF", read, gateway) == Step(Reply(UNSUPPORTED_FORMAT, None), history)
  {
    UpperCaseExtensionAccepted();
    var name := "notes.PDF";
    assert name[|name| - 4..] == ".PDF";
    assert name[|name| - 5..] == "s.PDF";
    UploadUnsupported(history, name, name, read, gateway);
  }

  /** One request, as the two handlers serve it. An upload carries the reader for the file
      it brings, so two uploads may read different texts under the same name. */
  datatype Request =
    | ChatRequest(userInput: string, online: bool)
    | UploadRequest(filename: string, savedName: string, read: Reader)

  function Serve(history: seq<Turn>, request: Request, gateway: Gateway): Step {
    match request
    case ChatRequest(userInput, online) => ChatStep(history, userInput, online, gateway)
    case UploadRequest(filename, savedName, read) => UploadStep(history, filename, savedName, read, gateway)
  }

  /** A step from `history` appends at most two turns, removes or reorders nothing, and
      keeps each model turn right after a user turn; it keeps strict alternation unless it
      appends a single turn, and a single appended turn is a user turn with no table sent. */
  predicate KeepsOrder(history: seq<Turn>, s: Step) {
    history <= s.history && |s.history| <= |history| + 2 &&
    (ModelFollowsUser(history) ==> ModelFollowsUser(s.history)) &&
    (Alternating(history) && |s.history| != |history| + 1 ==> Alternating(s.history)) &&
    (|s.history| == |history| + 1 ==> s.history[|history|].role == User && s.reply.table == None)
  }

  lemma ChatKeepsOrder(history: seq<Turn>, rawInput: string, online: bool, gateway: Gateway)
    ensures KeepsOrder(history, ChatStep(history, rawInput, online, gateway))
  {
    if Strip(rawInput) != [] && online {
      ConverseKeepsOrder(history, Strip(rawInput), gateway);
    }
  }

  lemma UploadKeepsOrder(history: seq<Turn>, filename: string, savedName: string, read: Reader, gateway: Gateway)
    ensures KeepsOrder(history, UploadStep(history, filename, savedName, read, gateway))
  {
    if filename != [] && AllowedFile(filename) && DocumentKindOf(savedName).Some? {
      var kind := DocumentKindOf(savedName).value;
      if read(kind, savedName).Produced? {
        ConverseKeepsOrder(history, read(kind, savedName).text, gateway);
      }
    }
  }

  /** Every request, chat or upload, keeps the order of the history (see `KeepsOrder`);
      strict alternation is lost only when the gateway raised after the user turn was added. */
  lemma ServeKeepsOrder(history: seq<Turn>, request: Request, gateway: Gateway)
    ensures KeepsOrder(history, Serve(history, request, gateway))
  {
    match request
    case ChatRequest(userInput, online) =>
      ChatKeepsOrder(history, userInput, online, gateway);
    case UploadRequest(filename, savedName, read) =>
      UploadKeepsOrder(history, filename, savedName, read, gateway);
  }

  /** The history after serving a sequence of requests one at a time. */
  function Replay(history: seq<Turn>, requests: seq<Request>, gateway: Gateway): seq<Turn>
    decreases |requests|
  {
    if requests == [] then history
    else Replay(Serve(history, requests[0], gateway).history, requests[1..], gateway)
  }

  /** Over any run of requests the history only grows at its end, and every model turn
      follows a user turn. */
  lemma {:induction false} ReplayKeepsOrder(history: seq<Turn>, requests: seq<Request>, gateway: Gateway)
    ensures history <= Replay(history, requests, gateway)
    ensures ModelFollowsUser(history) ==> ModelFollowsUser(Replay(history, requests, gateway))
    decreases |requests|
  {
    if requests != [] {
      var next := Serve(history, requests[0], gateway).history;
      ServeKeepsOrder(history, requests[0], gateway);
      ReplayKeepsOrder(next, requests[1..], gateway);
    }
  }

  /** Strict alternation is not kept: a chat turn whose gateway call raises leaves a lone
      user turn, and the next answered turn puts a second user turn right after it. */
  lemma AlternationLostAfterFailure()
    ensures var failing: Gateway := (h, m) => Raised("quota");
      var answering: Gateway := (h, m) => Produced("ok");
      var first := ChatStep([], "hi", true, failing).history;
      var second := ChatStep(first, "hi", true, answering).history;
      Alternating([]) && |first| == 1 && first[0].role == User &&
      |second| == 3 && second[0].role == User && second[1].role == User && !Alternating(second)
  {
    var failing: Gateway := (h, m) => Raised("quota");
    var answering: Gateway := (h, m) => Produced("ok");
    var hi := "hi";
    assert hi[0..|hi|] == hi && hi[..0] == [] && hi[|hi|..] == [];
    assert Strip(hi) == hi;
    var userTurn := Turn(User, hi + "\n");
    ChatGatewayFailed([], hi, failing, "quota");
    var first := ChatStep([], hi, true, failing).history;
    assert first == [userTurn];
    ChatAnswered(first, hi, answering, "ok");
    var second := ChatStep(first, hi, true, answering).history;
    assert second == [userTurn, userTurn, Turn(Model, Strip("ok") + "\n")];
  }

  /** The process-wide `conversation_history`, with one sequential caller. */
  class ConversationStore {
    var history: seq<Turn>

    constructor ()
      ensures history == []
    {
      history := [];
    }

    /** Append the user turn, ask the gateway, and append the model turn if it answered. */
    method Ask(message: string, gateway: Gateway) returns (answer: Outcome)
      modifies this
      ensures Exchange(answer, history) == Converse(old(history), message, gateway)
    {
      history := history + [Turn(User, message + "\n")];
      var outcome := gateway(history, message);
      match outcome {
        case Raised(detail) =>
          answer := Raised(detail);
        case Produced(text) =>
          var responseText := Strip(text);
          history := history + [Turn(Model, responseText + "\n")];
          answer := Produced(responseText);
      }
    }

    /** `chat`: the reply and the new history are those `ChatStep` describes. */
    method Chat(rawInput: string, online: bool, gateway: Gateway) returns (reply: Reply)
      modifies this
      ensures Step(reply, history) == ChatStep(old(history), rawInput, online, gateway)
    {
      var userInput := Strip(rawInput);
      if userInput == [] {
        return Reply(EMPTY_INPUT, None);
      }
      if !online {
        return Reply(NETWORK_ERROR, None);
      }
      var answer := Ask(userInput, gateway);
      match answer {
        case Raised(detail) =>
          reply := Reply(CHAT_ERROR_PREFIX + detail, None);
        case Produced(responseText) =>
          reply := Reply(responseText, None);
          if TableRequested(userInput, responseText) {
            var extraction := ExtractTable(responseText);
            if extraction.Extracted? {
              reply := Reply(responseText, Some(extraction.table));
            }
          }
      }
    }

    /** `upload_file`: the reply and the new history are those `UploadStep` describes. */
    method Upload(filename: string, savedName: string, read: Reader, gateway: Gateway) returns (reply: Reply)
      modifies this
      ensures Step(reply, history) == UploadStep(old(history), filename, savedName, read, gateway)
    {
      if filename == [] {
        return Reply(NO_FILE_SELECTED, None);
      }
      if !AllowedFile(filename) {
        return Reply(INVALID_FILE_TYPE, None);
      }
      var kind: DocumentKind;
      if EndsWith(savedName, ".pdf") {
        kind := Pdf;
      } else if EndsWith(savedName, ".docx") {
        kind := Docx;
      } else {
        return Reply(UNSUPPORTED_FORMAT, None);
      }
      var content := read(kind, savedName);
      if content.Raised? {
        return Reply(FILE_ERROR_PREFIX + content.detail, None);
      }
      var answer := Ask(content.text, gateway);
      match answer {
        case Raised(detail) =>
          reply := Reply(FILE_ERROR_PREFIX + detail, None);
        case Produced(responseText) =>
          reply := Reply(responseText, None);
      }
    }
  }
}
