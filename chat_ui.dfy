/**
 * The chat component (`ChatUI`, src/App.js lines 12-109): its state, the inbound
 * frame handler `processChatMessage`, the send handler `sendMessage` and the two
 * ways the page reaches it (Enter in the input field, the send button).
 *
 * Each handler runs as one atomic update. The chat socket is reduced to the
 * sequence `sent` of frames it was asked to transmit.
 */
module ChatComponent {
  import opened Wrappers
  import opened JsString
  import opened ChatLog

  /** The component's state: `messages`, `inputMessage`, `isSending`, and the socket's outbound frames. */
  datatype ChatState = ChatState(messages: seq<Message>, inputMessage: string, isSending: bool, sent: seq<string>)

  /** What the component starts with (lines 13-15): no entries, empty input, not sending, nothing sent. */
  function Initial(): ChatState {
    ChatState([], "", false, [])
  }

  /** `processChatMessage`: `end` clears `isSending`, `chunk` goes through the log updater, anything else is ignored. */
  function OnChatFrame(s: ChatState, data: ChatFrame): ChatState {
    match data
    case End => s.(isSending := false)
    case Chunk(id, content) => s.(messages := ApplyChunk(s.messages, id, content))
    case Other => s
  }

  /** `sendMessage`: when the trimmed input is non-empty, start a turn with the untrimmed input. */
  function OnSend(s: ChatState): ChatState {
    if !IsBlank(s.inputMessage) then
      ChatState(s.messages + [Message(None, s.inputMessage, true)], "", true, s.sent + [s.inputMessage])
    else s
  }

  /** The input field's `onKeyPress`: only Enter sends, and it does so whatever `isSending` is. */
  function OnKeyPress(s: ChatState, key: string): ChatState {
    if key == "Enter" then OnSend(s) else s
  }

  /** The send button: it is disabled while `isSending`, so a click then does nothing. */
  function OnButtonClick(s: ChatState): ChatState {
    if s.isSending then s else OnSend(s)
  }

  /** Everything that reaches the component: typing, a key press, a button click, an inbound frame. */
  datatype UiEvent = Typed(text: string) | KeyPressed(key: string) | ButtonClicked | Received(frame: ChatFrame)

  function Step(s: ChatState, e: UiEvent): ChatState {
    match e
    case Typed(text) => s.(inputMessage := text)
    case KeyPressed(key) => OnKeyPress(s, key)
    case ButtonClicked => OnButtonClick(s)
    case Received(frame) => OnChatFrame(s, frame)
  }

  /** The state after `events`, handled one at a time in order. */
  function Run(s: ChatState, events: seq<UiEvent>): ChatState {
    if events == [] then s else Step(Run(s, events[..|events| - 1]), events[|events| - 1])
  }

  /** The inbound frames among `events`, in order. */
  function FramesOf(events: seq<UiEvent>): seq<ChatFrame> {
    if events == [] then []
    else
      var last := events[|events| - 1];
      FramesOf(events[..|events| - 1]) + (if last.Received? then [last.frame] else [])
  }

  /** How many `end` frames `frames` holds. */
  function Ends(frames: seq<ChatFrame>): nat {
    if frames == [] then 0 else Ends(frames[..|frames| - 1]) + (if frames[|frames| - 1].End? then 1 else 0)
  }

  /** Whether `events` contain an Enter key press. */
  predicate PressesEnter(events: seq<UiEvent>) {
    exists k :: 0 <= k < |events| && events[k] == KeyPressed("Enter")
  }

  /** The contents of the user entries of `log`, in order. */
  function UserContents(log: seq<Message>): seq<string> {
    if log == [] then []
    else
      var last := log[|log| - 1];
      UserContents(log[..|log| - 1]) + (if last.isUser then [last.content] else [])
  }

  /** User entries, and only they, have no id. */
  ghost predicate UserEntriesUnnamed(log: seq<Message>) {
    forall k :: 0 <= k < |log| ==> (log[k].isUser <==> log[k].id.None?)
  }

  /**
   * What holds of every reachable state: server ids are unique, only user entries
   * lack an id, and the user entries are exactly the frames sent, in order.
   */
  ghost predicate Inv(s: ChatState) {
    UniqueIds(s.messages) && UserEntriesUnnamed(s.messages) && UserContents(s.messages) == s.sent
  }

  /** Whitespace-only input (including "") sends nothing and changes nothing. */
  lemma SendBlankIsNoOp(s: ChatState)
    requires AllWhitespace(s.inputMessage)
    ensures OnSend(s) == s
  {
    BlankIffAllWhitespace(s.inputMessage);
  }

  /**
   * Input with a non-whitespace character starts a turn: `isSending` is set, one
   * user entry with the untrimmed text is appended, that same text is sent once,
   * and the input is cleared.
   */
  lemma SendNonBlank(s: ChatState)
    requires !AllWhitespace(s.inputMessage)
    ensures var t := OnSend(s);
      t.isSending && t.inputMessage == "" &&
      t.messages == s.messages + [Message(None, s.inputMessage, true)] &&
      t.sent == s.sent + [s.inputMessage]
  {
    BlankIffAllWhitespace(s.inputMessage);
  }

  /** `end` clears `isSending` and leaves the log, the input and the sent frames alone. */
  lemma EndClearsSending(s: ChatState)
    ensures var t := OnChatFrame(s, End);
      !t.isSending && t.messages == s.messages && t.inputMessage == s.inputMessage && t.sent == s.sent
  {
  }

  lemma UserContentsAppend(log: seq<Message>, m: Message)
    ensures UserContents(log + [m]) == UserContents(log) + (if m.isUser then [m.content] else [])
  {
    assert (log + [m])[..|log|] == log;
  }

  /** Changing the content of a server entry does not change the user entries. */
  lemma {:induction false} UserContentsServerEdit(log: seq<Message>, i: nat, c: string)
    requires i < |log| && !log[i].isUser
    ensures UserContents(log[i := log[i].(content := c)]) == UserContents(log)
  {
    var r := log[i := log[i].(content := c)];
    if i < |log| - 1 {
      assert r[..|r| - 1] == log[..|log| - 1][i := log[i].(content := c)];
      UserContentsServerEdit(log[..|log| - 1], i, c);
    } else {
      assert r[..|r| - 1] == log[..|log| - 1];
    }
  }

  /** A chunk keeps the invariant: it edits a server entry or appends one. */
  lemma ChunkPreservesInv(s: ChatState, id: string, content: string)
    requires Inv(s)
    ensures Inv(OnChatFrame(s, Chunk(id, content)))
  {
    ApplyChunkUnique(s.messages, id, content);
    var i := FindIndex(s.messages, id);
    if i != -1 {
      UserContentsServerEdit(s.messages, i, s.messages[i].content + content);
    } else {
      UserContentsAppend(s.messages, Message(Some(id), content, false));
    }
  }

  /** A send keeps the invariant: the new user entry has no id and matches the new outbound frame. */
  lemma SendPreservesInv(s: ChatState)
    requires Inv(s)
    ensures Inv(OnSend(s))
  {
    var m := Message(None, s.inputMessage, true);
    UserContentsAppend(s.messages, m);
  }

  /** Every handler keeps the invariant. */
  lemma StepPreservesInv(s: ChatState, e: UiEvent)
    requires Inv(s)
    ensures Inv(Step(s, e))
  {
    match e
    case Typed(_) =>
    case KeyPressed(_) => SendPreservesInv(s);
    case ButtonClicked => SendPreservesInv(s);
    case Received(f) =>
      if f.Chunk? {
        ChunkPreservesInv(s, f.id, f.content);
      }
  }

  /** Every reachable state satisfies the invariant. */
  lemma {:induction false} RunPreservesInv(s: ChatState, events: seq<UiEvent>)
    requires Inv(s)
    ensures Inv(Run(s, events))
  {
    if events != [] {
      RunPreservesInv(s, events[..|events| - 1]);
      StepPreservesInv(Run(s, events[..|events| - 1]), events[|events| - 1]);
    }
  }

  lemma InitialInv()
    ensures Inv(Initial())
  {
  }

  /**
   * Reassembly survives the user's own turns: whatever typing, sending and frames
   * interleave, the entry for server id `x` displays what it displayed before
   * followed by `x`'s chunks in arrival order.
   */
  lemma {:induction false} RunLookup(s: ChatState, events: seq<UiEvent>, x: string)
    ensures Lookup(Run(s, events).messages, x) == Expected(Lookup(s.messages, x), FramesOf(events), x)
  {
    if events == [] {
      ReassembleLookup(s.messages, [], x);
    } else {
      var init, last := events[..|events| - 1], events[|events| - 1];
      var mid := Run(s, init);
      RunLookup(s, init, x);
      var frames := FramesOf(init);
      if last.Received? {
        assert FramesOf(events) == frames + [last.frame];
        ExpectedSnoc(Lookup(s.messages, x), frames, last.frame, x);
        if last.frame.Chunk? {
          ApplyChunkLookup(mid.messages, last.frame.id, last.frame.content, x);
        }
      } else {
        assert FramesOf(events) == frames + [];
        assert frames + [] == frames;
        var t := Run(s, events);
        if t.messages != mid.messages {
          FindIndexAppend(mid.messages, Message(None, mid.inputMessage, true), x);
        }
      }
    }
  }

  /** One more frame, stated on `Expected`. */
  lemma ExpectedSnoc(before: Option<string>, frames: seq<ChatFrame>, f: ChatFrame, x: string)
    ensures Expected(before, frames + [f], x) ==
              if IsChunkOf(f, x) then Some(Expected(before, frames, x).GetOr("") + f.content)
              else Expected(before, frames, x)
  {
    var g := frames + [f];
    assert g[..|g| - 1] == frames;
    HasChunkSnoc(frames, f, x);
    if IsChunkOf(f, x) {
      if !HasChunk(frames, x) {
        NoChunkNoContent(frames, x);
      }
      assert (before.GetOr("") + ChunksOf(frames, x)) + f.content == before.GetOr("") + ChunksOf(g, x);
    } else {
      assert ChunksOf(g, x) == ChunksOf(frames, x) + "";
      assert ChunksOf(frames, x) + "" == ChunksOf(frames, x);
    }
  }

  /** One more frame for `Ends`. */
  lemma EndsSnoc(frames: seq<ChatFrame>, f: ChatFrame)
    ensures Ends(frames + [f]) == Ends(frames) + (if f.End? then 1 else 0)
  {
    assert (frames + [f])[..|frames|] == frames;
  }

  function Free(s: ChatState): nat {
    if s.isSending then 0 else 1
  }

  /**
   * Through the send button alone at most one user turn is outstanding: every
   * send after the first needs an `end` frame in between.
   */
  lemma {:induction false} ButtonTurnBound(s: ChatState, events: seq<UiEvent>)
    requires !PressesEnter(events)
    ensures |Run(s, events).sent| + Free(Run(s, events)) <= |s.sent| + Free(s) + Ends(FramesOf(events))
  {
    if events != [] {
      var init, last := events[..|events| - 1], events[|events| - 1];
      assert !PressesEnter(init) by {
        forall k | 0 <= k < |init| ensures init[k] != KeyPressed("Enter") {
          assert init[k] == events[k];
        }
      }
      assert last != KeyPressed("Enter");
      ButtonTurnBound(s, init);
      if last.Received? {
        assert FramesOf(events) == FramesOf(init) + [last.frame];
        EndsSnoc(FramesOf(init), last.frame);
      } else {
        assert FramesOf(events) == FramesOf(init) + [];
        assert FramesOf(init) + [] == FramesOf(init);
      }
    }
  }

  /** From the initial state, the button path never has more sends than `end` frames plus one. */
  lemma ButtonTurnsFromStart(events: seq<UiEvent>)
    requires !PressesEnter(events)
    ensures |Run(Initial(), events).sent| <= Ends(FramesOf(events)) + 1
  {
    ButtonTurnBound(Initial(), events);
  }

  /**
   * The Enter path bypasses the guard: with a turn outstanding and non-blank
   * input, Enter sends another frame (a second outstanding turn, with no `end`
   * frame in between, which `ButtonTurnBound` rules out for the button), while
   * the disabled button would do nothing.
   */
  lemma EnterSendsDuringTurn(s: ChatState)
    requires s.isSending && !AllWhitespace(s.inputMessage)
    ensures var t := OnKeyPress(s, "Enter");
      t.isSending && t.sent == s.sent + [s.inputMessage] &&
      |t.sent| + Free(t) > |s.sent| + Free(s) + Ends([])
    ensures OnButtonClick(s) == s
  {
    SendNonBlank(s);
  }

  /** The component's state as React holds it, with the chat socket's outbound frames. */
  class ChatUI {
    const currUserID: string
    var messages: seq<Message>
    var inputMessage: string
    var isSending: bool
    var sent: seq<string>

    function State(): ChatState
      reads this
    {
      ChatState(messages, inputMessage, isSending, sent)
    }

    ghost predicate Valid()
      reads this
    {
      Inv(State())
    }

    /** A freshly mounted component for user `currUserID` (lines 12-16). */
    constructor (currUserID: string)
      ensures Valid() && State() == Initial() && this.currUserID == currUserID
    {
      this.currUserID := currUserID;
      messages, inputMessage, isSending, sent := [], "", false, [];
    }

    /** `processChatMessage` (lines 50-69). */
    method ProcessChatMessage(data: ChatFrame)
      requires Valid()
      modifies this
      ensures Valid() && State() == OnChatFrame(old(State()), data)
      ensures inputMessage == old(inputMessage) && sent == old(sent)
      ensures data.End? ==> !isSending && messages == old(messages)
      ensures data.Other? ==> isSending == old(isSending) && messages == old(messages)
      ensures data.Chunk? ==> isSending == old(isSending) && messages == ApplyChunk(old(messages), data.id, data.content)
    {
      if data.Chunk? {
        ChunkPreservesInv(State(), data.id, data.content);
      }
      if data.End? {
        isSending := false;
        return;
      }
      if data.Chunk? {
        messages := ApplyChunk(messages, data.id, data.content);
      }
    }

    /** `sendMessage` (lines 71-79); it does not look at `isSending`. */
    method SendMessage()
      requires Valid()
      modifies this
      ensures Valid() && State() == OnSend(old(State()))
      ensures IsBlank(old(inputMessage)) ==> State() == old(State())
      ensures !IsBlank(old(inputMessage)) ==>
                isSending && inputMessage == "" &&
                messages == old(messages) + [Message(None, old(inputMessage), true)] &&
                sent == old(sent) + [old(inputMessage)]
    {
      SendPreservesInv(State());
      if Trim(inputMessage) != "" {
        isSending := true;
        var newMessage := Message(None, inputMessage, true);
        messages := messages + [newMessage];
        sent := sent + [newMessage.content];
        inputMessage := "";
      }
    }

    /** The input field's `onChange` (line 96). */
    method SetInputMessage(text: string)
      requires Valid()
      modifies this
      ensures Valid() && State() == old(State()).(inputMessage := text)
    {
      inputMessage := text;
    }

    /** The input field's `onKeyPress` (line 97). */
    method KeyPress(key: string)
      requires Valid()
      modifies this
      ensures Valid() && State() == OnKeyPress(old(State()), key)
    {
      if key == "Enter" {
        SendMessage();
      }
    }

    /** The send button (lines 100-102): a disabled button delivers no click. */
    method ClickSend()
      requires Valid()
      modifies this
      ensures Valid() && State() == OnButtonClick(old(State()))
      ensures old(isSending) ==> State() == old(State())
    {
      if !isSending {
        SendMessage();
      }
    }
  }
}
