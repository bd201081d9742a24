/**
 * The `/chat` handler of the Gemini-backed study assistant (app/main.py).
 *
 * A request is an ordered list of role/content messages plus an optional
 * model override. The handler turns it into one provider call: the model
 * name, the non-system messages as role-tagged turns, and, when there is a
 * non-empty one, a config carrying the newline-joined system messages. The
 * provider's text comes back as the reply, "" when it has none; anything the
 * provider raises becomes an HTTP 500 whose detail is the error's text.
 */
module Chat {
  import opened Wrappers
  import opened Text

  /** One incoming message; the role is free text, not an enum. */
  datatype Message = Message(role: string, content: string)

  datatype ChatRequest = ChatRequest(messages: seq<Message>, model: Option<string>)

  datatype ChatResponse = ChatResponse(reply: string)

  /** A provider turn: a provider role ("user" or "model") and one text part. */
  datatype Turn = Turn(role: string, text: string)

  datatype GenerateConfig = GenerateConfig(systemInstruction: string)

  /** Everything the handler passes to the provider's `generate_content`. */
  datatype ProviderCall = ProviderCall(model: string, contents: seq<Turn>, config: Option<GenerateConfig>)

  /** What the provider call does: return a response whose text may be
      missing, or raise an error with a description. */
  datatype ProviderOutcome = Returned(text: Option<string>) | Raised(message: string)

  /** What the handler answers: a reply, or an HTTP error status with detail. */
  datatype ChatOutcome = Replied(response: ChatResponse) | ServerError(status: int, detail: string)

  /** The status every failure in the handler is reported with. */
  const InternalServerError: int := 500

  /** The model used when neither the request nor the environment names one. */
  const BuiltInModel: string := "gemini-2.5-flash"

  // ---------------------------------------------------------------------
  // Model selection
  // ---------------------------------------------------------------------

  /** `os.getenv("GEMINI_MODEL", BuiltInModel)`: a set variable wins, even
      when it is set to the empty string. */
  function DefaultModel(envModel: Option<string>): (r: string)
    ensures envModel.Some? ==> r == envModel.value
    ensures envModel.None? ==> r == BuiltInModel
  {
    match envModel
    case Some(name) => name
    case None => BuiltInModel
  }

  /** `req.model or default`: the override when it is truthy, else the default. */
  function SelectModel(requested: Option<string>, default: string): (r: string)
    ensures requested.Some? && requested.value != "" ==> r == requested.value
    ensures r == default || (requested == Some(r) && r != "")
  {
    if requested.Some? && requested.value != "" then requested.value else default
  }

  // ---------------------------------------------------------------------
  // System instruction
  // ---------------------------------------------------------------------

  predicate IsSystem(m: Message) {
    m.role == "system"
  }

  /** The contents of the system messages, in input order. */
  function SystemContents(messages: seq<Message>): (r: seq<string>)
    ensures |r| <= |messages|
  {
    if |messages| == 0 then []
    else
      var last := messages[|messages| - 1];
      SystemContents(messages[..|messages| - 1]) + (if IsSystem(last) then [last.content] else [])
  }

  /** The system instruction: absent when no message is a system message,
      otherwise their contents joined with newlines. */
  function SystemInstruction(messages: seq<Message>): (r: Option<string>)
    ensures r.None? <==> forall i :: 0 <= i < |messages| ==> !IsSystem(messages[i])
    ensures r.Some? ==> r.value == Join(Newline, SystemContents(messages))
  {
    NoSystemContentsIff(messages);
    var parts := SystemContents(messages);
    if |parts| > 0 then Some(Join(Newline, parts)) else None
  }

  /** The config handed to the provider: present exactly when the system
      instruction is present and non-empty, and then carrying it. */
  function BuildConfig(instruction: Option<string>): (r: Option<GenerateConfig>)
    ensures r.Some? <==> instruction.Some? && instruction.value != ""
    ensures r.Some? ==> instruction == Some(r.value.systemInstruction)
  {
    if instruction.Some? && instruction.value != "" then
      Some(GenerateConfig(instruction.value))
    else
      None
  }

  // ---------------------------------------------------------------------
  // Turns
  // ---------------------------------------------------------------------

  /** The provider role of a non-system message: "assistant" becomes
      "model", every other role (including unknown ones) becomes "user". */
  function MapRole(role: string): (r: string)
    ensures r == "user" || r == "model"
    ensures r == "model" <==> role == "assistant"
  {
    if role == "user" then "user"
    else if role == "assistant" then "model"
    else "user"
  }

  /** The provider turn of one non-system message: its text unchanged, its
      role "model" exactly when the message came from the assistant. */
  function ToTurn(m: Message): (t: Turn)
    ensures t.text == m.content
    ensures t.role == "user" || t.role == "model"
    ensures t.role == "model" <==> m.role == "assistant"
  {
    Turn(MapRole(m.role), m.content)
  }

  /** The turns the handler builds: one per non-system message, in order. */
  function TurnsOf(messages: seq<Message>): (r: seq<Turn>)
    ensures |r| <= |messages|
    ensures forall k :: 0 <= k < |r| ==> r[k].role == "user" || r[k].role == "model"
  {
    if |messages| == 0 then []
    else
      var last := messages[|messages| - 1];
      TurnsOf(messages[..|messages| - 1]) + (if IsSystem(last) then [] else [ToTurn(last)])
  }

  /** The indices, in increasing order, of the messages whose
      "is a system message" status equals `system`. */
  function Positions(messages: seq<Message>, system: bool): (r: seq<nat>)
    ensures |r| <= |messages|
  {
    if |messages| == 0 then []
    else
      var n := |messages| - 1;
      Positions(messages[..n], system) + (if IsSystem(messages[n]) == system then [n] else [])
  }

  /** The loop of the handler: skip system messages, map the role of every
      other one and append it as a turn. */
  method BuildContents(messages: seq<Message>) returns (contents: seq<Turn>)
    ensures contents == TurnsOf(messages)
  {
    contents := [];
    for i := 0 to |messages|
      invariant contents == TurnsOf(messages[..i])
    {
      assert messages[..i + 1][..i] == messages[..i];
      var m := messages[i];
      if m.role == "system" {
        continue;
      }
      var role;
      if m.role == "user" {
        role := "user";
      } else if m.role == "assistant" {
        role := "model";
      } else {
        role := "user";
      }
      contents := contents + [Turn(role, m.content)];
    }
    assert messages[..|messages|] == messages;
  }

  // ---------------------------------------------------------------------
  // Reply and the handler
  // ---------------------------------------------------------------------

  /** `response.text or ""`: the provider's text, never absent. */
  function ReplyText(text: Option<string>): (r: string)
    ensures text.Some? ==> r == text.value
    ensures r == "" || text == Some(r)
  {
    match text
    case Some(t) => t
    case None => ""
  }

  /** The provider call the handler makes for a request. */
  function PrepareCall(req: ChatRequest, defaultModel: string): (call: ProviderCall)
    ensures |call.contents| + |SystemContents(req.messages)| == |req.messages|
    ensures call.config.Some? ==> call.config.value.systemInstruction != ""
    ensures call.model != "" || defaultModel == ""
  {
    PartitionSizes(req.messages);
    ProviderCall(
      SelectModel(req.model, defaultModel),
      TurnsOf(req.messages),
      BuildConfig(SystemInstruction(req.messages)))
  }

  /** The `/chat` handler, with the provider passed in. The provider is
      called once, with the call `PrepareCall` describes; its text becomes
      the reply, and an error it raises becomes a 500 carrying its text. */
  method HandleChat(req: ChatRequest, envModel: Option<string>, provider: ProviderCall -> ProviderOutcome)
    returns (r: ChatOutcome)
    ensures var outcome := provider(PrepareCall(req, DefaultModel(envModel)));
      match outcome
      case Raised(e) => r == ServerError(InternalServerError, e)
      case Returned(text) => r == Replied(ChatResponse(ReplyText(text)))
  {
    var modelName := SelectModel(req.model, DefaultModel(envModel));
    var systemInstruction := SystemInstruction(req.messages);
    var contents := BuildContents(req.messages);
    var config: Option<GenerateConfig> := None;
    if systemInstruction.Some? && systemInstruction.value != "" {
      config := Some(GenerateConfig(systemInstruction.value));
    }
    var outcome := provider(ProviderCall(modelName, contents, config));
    match outcome {
      case Raised(e) =>
        r := ServerError(InternalServerError, e);
      case Returned(text) =>
        r := Replied(ChatResponse(ReplyText(text)));
    }
  }

  // ---------------------------------------------------------------------
  // Lemmas: partition, order, join
  // ---------------------------------------------------------------------

  /** There are no system contents exactly when no message is a system message. */
  lemma {:induction false} NoSystemContentsIff(messages: seq<Message>)
    ensures SystemContents(messages) == [] <==> forall i :: 0 <= i < |messages| ==> !IsSystem(messages[i])
  {
    if |messages| > 0 {
      var init := messages[..|messages| - 1];
      NoSystemContentsIff(init);
      assert forall i :: 0 <= i < |init| ==> init[i] == messages[i];
    }
  }

  /** Every message lands on exactly one side of the partition. */
  lemma {:induction false} PartitionSizes(messages: seq<Message>)
    ensures |SystemContents(messages)| + |TurnsOf(messages)| == |messages|
  {
    if |messages| > 0 {
      PartitionSizes(messages[..|messages| - 1]);
    }
  }

  /** Every listed position is an index of a matching message. */
  lemma {:induction false} PositionsMatch(messages: seq<Message>, system: bool)
    ensures forall k :: 0 <= k < |Positions(messages, system)| ==>
      Positions(messages, system)[k] < |messages| && IsSystem(messages[Positions(messages, system)[k]]) == system
  {
    if |messages| > 0 {
      var n := |messages| - 1;
      var init := messages[..n];
      PositionsMatch(init, system);
      assert forall i :: 0 <= i < n ==> init[i] == messages[i];
    }
  }

  /** The positions are listed in strictly increasing order. */
  lemma {:induction false} PositionsIncreasing(messages: seq<Message>, system: bool)
    ensures forall k, l :: 0 <= k < l < |Positions(messages, system)| ==>
      Positions(messages, system)[k] < Positions(messages, system)[l]
  {
    if |messages| > 0 {
      var n := |messages| - 1;
      PositionsMatch(messages[..n], system);
      PositionsIncreasing(messages[..n], system);
    }
  }

  /** Every index of a matching message is listed. */
  lemma {:induction false} PositionsComplete(messages: seq<Message>, system: bool)
    ensures forall j :: 0 <= j < |messages| && IsSystem(messages[j]) == system ==> j in Positions(messages, system)
  {
    if |messages| > 0 {
      var n := |messages| - 1;
      var init := messages[..n];
      PositionsComplete(init, system);
      assert forall i :: 0 <= i < n ==> init[i] == messages[i];
    }
  }

  /** The k-th system content is the content of the k-th system message. */
  lemma {:induction false} SystemContentsInOrder(messages: seq<Message>)
    ensures |SystemContents(messages)| == |Positions(messages, true)|
    ensures forall k :: 0 <= k < |SystemContents(messages)| ==>
      Positions(messages, true)[k] < |messages| &&
      SystemContents(messages)[k] == messages[Positions(messages, true)[k]].content
  {
    if |messages| > 0 {
      var n := |messages| - 1;
      SystemContentsInOrder(messages[..n]);
    }
  }

  /** Order preservation: the k-th turn is the k-th non-system message with
      its role mapped and its content unchanged. */
  lemma {:induction false} TurnsInOrder(messages: seq<Message>)
    ensures |TurnsOf(messages)| == |Positions(messages, false)|
    ensures forall k :: 0 <= k < |TurnsOf(messages)| ==>
      Positions(messages, false)[k] < |messages| &&
      TurnsOf(messages)[k] == Turn(MapRole(messages[Positions(messages, false)[k]].role),
                                   messages[Positions(messages, false)[k]].content)
  {
    if |messages| > 0 {
      var n := |messages| - 1;
      TurnsInOrder(messages[..n]);
    }
  }

  /** Building turns commutes with concatenating conversations. */
  lemma {:induction false} TurnsOfAppend(a: seq<Message>, b: seq<Message>)
    ensures TurnsOf(a + b) == TurnsOf(a) + TurnsOf(b)
  {
    if |b| == 0 {
      assert a + b == a;
    } else {
      var n := |b| - 1;
      TurnsOfAppend(a, b[..n]);
      assert (a + b)[..|a + b| - 1] == a + b[..n];
    }
  }

  /** A conversation made only of system messages produces no turns, and its
      system contents are all the contents, in order. */
  lemma {:induction false} AllSystem(messages: seq<Message>)
    requires forall i :: 0 <= i < |messages| ==> IsSystem(messages[i])
    ensures TurnsOf(messages) == []
    ensures |SystemContents(messages)| == |messages|
    ensures forall i :: 0 <= i < |messages| ==> SystemContents(messages)[i] == messages[i].content
  {
    if |messages| > 0 {
      var n := |messages| - 1;
      var init := messages[..n];
      assert forall i :: 0 <= i < n ==> init[i] == messages[i];
      AllSystem(init);
    }
  }

  /** The provider gets a config exactly when there are at least two system
      messages or some system message has non-empty content. */
  lemma ConfigPresentIff(messages: seq<Message>)
    ensures BuildConfig(SystemInstruction(messages)).Some? <==>
      |SystemContents(messages)| >= 2 ||
      exists i :: 0 <= i < |messages| && IsSystem(messages[i]) && messages[i].content != ""
  {
    var parts := SystemContents(messages);
    JoinEmptyIff(Newline, parts);
    SystemContentsInOrder(messages);
    PositionsComplete(messages, true);
    PositionsMatch(messages, true);
    var ps := Positions(messages, true);
    if exists i :: 0 <= i < |messages| && IsSystem(messages[i]) && messages[i].content != "" {
      var i :| 0 <= i < |messages| && IsSystem(messages[i]) && messages[i].content != "";
      var k :| 0 <= k < |ps| && ps[k] == i;
      assert parts[k] != "";
    }
    if |parts| == 1 && parts[0] != "" {
      assert IsSystem(messages[ps[0]]) && messages[ps[0]].content != "";
    }
  }

  /** System contents inherit the absence of newlines from the system messages. */
  lemma SystemContentsNoNewline(messages: seq<Message>)
    requires forall i :: 0 <= i < |messages| && IsSystem(messages[i]) ==> NoNewline(messages[i].content)
    ensures forall k :: 0 <= k < |SystemContents(messages)| ==> NoNewline(SystemContents(messages)[k])
  {
    SystemContentsInOrder(messages);
    PositionsMatch(messages, true);
  }

  /** When no system message contains a newline, splitting the instruction
      at newlines gives back the system contents. */
  lemma InstructionSplitsBack(messages: seq<Message>)
    requires forall i :: 0 <= i < |messages| && IsSystem(messages[i]) ==> NoNewline(messages[i].content)
    requires SystemInstruction(messages).Some?
    ensures SplitLines(SystemInstruction(messages).value) == SystemContents(messages)
  {
    SystemContentsNoNewline(messages);
    SplitLinesJoin(SystemContents(messages));
  }

  // ---------------------------------------------------------------------
  // Concrete conversations
  // ---------------------------------------------------------------------

  /** One system message and one user message. */
  lemma BeConciseExample()
    ensures var req := ChatRequest([Message("system", "Be concise."), Message("user", "2+2?")], None);
      PrepareCall(req, BuiltInModel) ==
        ProviderCall(BuiltInModel, [Turn("user", "2+2?")], Some(GenerateConfig("Be concise.")))
  {
    var ms := [Message("system", "Be concise."), Message("user", "2+2?")];
    assert ms[..1] == [Message("system", "Be concise.")];
    assert ms[..1][..0] == [];
  }

  /** Roles user, assistant, narrator become user, model, user. */
  lemma RoleMappingExample()
    ensures TurnsOf([Message("user", "a"), Message("assistant", "b"), Message("narrator", "c")]) ==
      [Turn("user", "a"), Turn("model", "b"), Turn("user", "c")]
  {
    var ms := [Message("user", "a"), Message("assistant", "b"), Message("narrator", "c")];
    assert ms[..2] == [Message("user", "a"), Message("assistant", "b")];
    assert ms[..2][..1] == [Message("user", "a")];
    assert ms[..2][..1][..0] == [];
  }

  /** A single empty system message joins to "", so no config is sent; two
      empty ones join to "\n", so a config is sent. */
  lemma EmptySystemExamples()
    ensures SystemInstruction([Message("system", "")]) == Some("")
    ensures BuildConfig(SystemInstruction([Message("system", "")])).None?
    ensures BuildConfig(SystemInstruction([Message("system", ""), Message("system", "")])) ==
      Some(GenerateConfig("\n"))
  {
    var one := [Message("system", "")];
    assert one[..0] == [];
    var two := [Message("system", ""), Message("system", "")];
    assert two[..1] == one;
    assert SystemContents(two) == ["", ""];
    assert ["", ""][..1] == [""];
    assert Join(Newline, ["", ""]) == "" + Newline + "";
    assert "" + Newline + "" == "\n";
  }
}
