# Queue-admitted streaming chat client: session state model

This project models the client-side session state of a React chat client
(`src/App.js`). A user first waits in a queue. The queue socket delivers text
frames: the frame `"Connected"` admits the user; any other frame is a
position text that replaces the one shown. Once admitted, the page shows the
chat component. It keeps an ordered message log. Server replies stream in as
`chunk{id, content}` frames that are folded into the log by id, and an `end`
frame closes the server's turn. The user sends a message by Enter or by the
send button.

Modules, one per concern of the source file:

- `Wrappers` (`wrappers.dfy`): `Option`, used for a message's id (user entries have none).
- `JsString` (`js_string.dfy`): JavaScript's `trim` and the emptiness guard of the send handler.
- `ChatLog` (`chat_log.dfy`): messages, decoded chat frames, `findIndex`, the `setMessages` updater for a chunk, and what any sequence of frames does to the log.
- `ChatComponent` (`chat_ui.dfy`): the chat component's state (`messages`, `inputMessage`, `isSending`, the socket's outbound frames `sent`), its handlers as functions over that state and as the methods of class `ChatUI`, and lemmas over sequences of UI events.
- `AppComponent` (`app.dfy`): the queue state (`queuePosition`, `waitingInQueue`), `processQueueMessages` as a function and as a method of class `App`, and lemmas over sequences of queue frames.

Each handler is one atomic, sequential state update. The state-changing
methods are tied to pure step functions (`State() == OnSend(old(State()))`),
and the lemmas about those functions hold for every frame or event sequence.

Three behaviours of the code differ from what one might expect of such a client; the model follows the code:

- A send is not refused while a turn is outstanding. Only the button is disabled (line 102); Enter (line 97) calls `sendMessage` regardless. See Findings.
- A chunk is appended to the FIRST entry with its id (`findIndex`, line 58), not to the most recent one. With unique ids (proved) the two coincide.
- Queue frames that arrive after admission still overwrite `queuePosition` (line 146). The waiting page is no longer shown, so nothing visible changes.

## Model

| member | source | states |
|---|---|---|
| `JsString.TrimStart` | src/App.js:72 | the result is the suffix of the input left after removing all leading JS whitespace, and it does not start with whitespace |
| `JsString.TrimEnd` | src/App.js:72 | the result is the prefix of the input left after removing all trailing JS whitespace, and it does not end with whitespace |
| `JsString.BlankIffAllWhitespace` | src/App.js:72 | `s.trim()` is empty exactly when every character of `s` is whitespace, in both directions |
| `ChatLog.FindIndex` | src/App.js:58 | -1 exactly when no entry has the id; otherwise the index of an entry with the id, and no earlier entry has it |
| `ChatLog.ApplyChunk` | src/App.js:57-67 | an unknown id appends one entry `{id, content, isUser:false}` at the end; a known id appends the content to its first entry, with length, order and every other entry unchanged |
| `ChatLog.ApplyChunkLookup` | src/App.js:58-66 | after a chunk, its own id displays the old content (or nothing) followed by the chunk, and every other id displays what it displayed before |
| `ChatLog.ApplyChunkUnique` | src/App.js:58-66 | a chunk keeps server ids unique |
| `ChatLog.FindIndexAppend` | src/App.js:58 | appending an entry leaves an existing first match where it was, and finds the new entry only if no earlier entry has the id |
| `ChatLog.ReassembleLookup` | src/App.js:50-69 | for any frame sequence, the entry for id `x` displays its earlier content followed by the contents of `x`'s chunks in delivery order, whatever the interleaving with other ids, `end` and other frames |
| `ChatLog.ReassembleFromEmpty` | src/App.js:56-67 | from an empty log, id `x` has an entry exactly when a chunk of `x` arrived, and it displays the in-order concatenation of those chunks |
| `ChatLog.ReassembleInvariant` | src/App.js:56-67 | for any frame sequence, server ids stay unique and the log is append-only: no entry is removed or moved, and content only grows |
| `ChatLog.ReassembleOrder` | src/App.js:63-66 | from an empty log there is one server entry per distinct id, in order of the id's first chunk |
| `ChatLog.InterleavedIds` | src/App.js:56-67 | chunks `a:"A1"`, `b:"B1"`, `a:"A2"` give `[a:"A1A2", b:"B1"]` |
| `ChatComponent.SendBlankIsNoOp` | src/App.js:72 | empty or whitespace-only input: no entry, no outbound frame, `isSending` unchanged, input not cleared |
| `ChatComponent.SendNonBlank` | src/App.js:72-77 | non-blank input sets `isSending`, appends one user entry with no id holding the untrimmed input, records that same text as one outbound frame, and clears the input |
| `ChatComponent.EndClearsSending` | src/App.js:51-55 | an `end` frame clears `isSending` and changes neither the log, the input nor the sent frames |
| `ChatComponent.ChunkPreservesInv` | src/App.js:56-67 | a chunk keeps the invariant |
| `ChatComponent.SendPreservesInv` | src/App.js:72-77 | a send keeps the invariant: the new user entry has no id and its text is the new outbound frame |
| `ChatComponent.StepPreservesInv` | src/App.js:50-79 | every handler keeps the invariant: server ids unique, only user entries without id, user entries equal to the sent frames in order |
| `ChatComponent.RunPreservesInv` | src/App.js:50-79 | the invariant holds after any sequence of typing, key presses, clicks and frames |
| `ChatComponent.RunLookup` | src/App.js:50-79 | the user's own sends never disturb reassembly: after any UI events, id `x` displays its earlier content followed by its chunks in arrival order |
| `ChatComponent.ExpectedSnoc` | src/App.js:58-66 | one more frame adds its content to what its own id displays and changes nothing for other ids |
| `ChatComponent.ButtonTurnBound` | src/App.js:100-102 | using only the button, sends plus "free" never exceed earlier sends plus "free" plus `end` frames: at most one turn is outstanding |
| `ChatComponent.ButtonTurnsFromStart` | src/App.js:100-102 | from the initial state, button-only use sends at most one more frame than there were `end` frames |
| `ChatComponent.EnterSendsDuringTurn` | src/App.js:97 | with a turn outstanding and non-blank input, Enter sends one more frame and keeps `isSending`, breaking the one-outstanding-turn bound, while the button would do nothing |
| `ChatComponent.ChatUI.constructor` | src/App.js:13-15 | a new component has no entries, empty input, `isSending` false, nothing sent, and satisfies the invariant |
| `ChatComponent.ChatUI.ProcessChatMessage` | src/App.js:50-69 | `end` clears `isSending` with the log unchanged; `chunk` applies the updater with `isSending` unchanged; any other type changes nothing; the invariant is kept |
| `ChatComponent.ChatUI.SendMessage` | src/App.js:71-79 | blank input changes nothing; otherwise the four effects of a send, without looking at `isSending`; the invariant is kept |
| `ChatComponent.ChatUI.SetInputMessage` | src/App.js:96 | only the input text changes |
| `ChatComponent.ChatUI.KeyPress` | src/App.js:97 | Enter sends whatever `isSending` is; other keys change nothing |
| `ChatComponent.ChatUI.ClickSend` | src/App.js:100-102 | while `isSending` the click changes nothing; otherwise it sends |
| `AppComponent.LastPosition` | src/App.js:146 | the result is the fallback or a non-sentinel frame, and with no sentinel it is the last frame |
| `AppComponent.RunQueueState` | src/App.js:142-148 | after any queue frames, the position is the last non-`"Connected"` frame (or the earlier one), and the user waits exactly when it waited before and no `"Connected"` arrived |
| `AppComponent.RunQueueAppend` | src/App.js:142-148 | handling two frame sequences one after the other equals handling their concatenation |
| `AppComponent.AdmissionMonotone` | src/App.js:143-144 | once admitted, the user is still admitted after any further frames |
| `AppComponent.AdmittedIffSentinel` | src/App.js:113-148 | from the initial state, the user is admitted exactly when `"Connected"` has arrived |
| `AppComponent.AfterAdmissionNothingShown` | src/App.js:142-153 | after admission, later frames still overwrite the position, but the waiting page shows nothing |
| `AppComponent.ChatMountedOnce` | src/App.js:150-156 | the chat component is mounted once if `"Connected"` arrives, and never otherwise |
| `AppComponent.QueueScenario` | src/App.js:142-148 | frames "Position 5", "Position 1", "Connected" end admitted with position "Position 1" and one chat mount |
| `AppComponent.App.constructor` | src/App.js:113-114 | the queue state starts as ("You are in the queue!", waiting) |
| `AppComponent.App.ProcessQueueMessages` | src/App.js:142-148 | `"Connected"` clears waiting and keeps the position; any other frame replaces the position and keeps waiting; waiting never turns back on |

## Left out

- The WebSocket objects, their `message`, `error` and `close` listeners, `alert` and `console` output, and the sockets' `close()` in effect cleanups (lines 19-40, 117-140). These are I/O and lifecycle plumbing. The chat socket is reduced to the list of frames it was asked to send.
- The socket's ready state. `send` on a socket that is still connecting throws in a browser, which would skip clearing the input. The model records every send.
- `JSON.parse` of inbound chat frames (line 23). Frames are given already decoded, as `Chunk`, `End` or `Other`.
- `crypto.randomUUID` and the `currUserID` ref (lines 115-119). The user id is an opaque string given to the `ChatUI` constructor.
- Scrolling (lines 42-48) and all JSX rendering (lines 5-10, 81-108, 150-158), except which page is shown (`ChatMounted`, `Displayed`).
- React's asynchronous batching of state updates and Strict Mode double invocation of updaters. Each handler is one atomic update.
- `ChatLog.ApplyChunk`: the source mutates the matched entry object in place (line 61), an object that the previous list shares. The model uses value semantics and replaces the entry. Aliasing is not captured.
- Chunk ids and contents are strings. A frame without an id (undefined in JavaScript) could match a user entry in the source; the model gives user entries no id and every chunk a string id, so this cannot happen.

## Findings

| source | as written | input that shows it | evidently intended | confidence | as-written member | corrected member |
|---|---|---|---|---|---|---|
| src/App.js:97 | Enter calls `sendMessage` without checking `isSending`; only the button is disabled (line 102) | send "a" with Enter, type "b" and press Enter before the `end` frame: a second frame is sent, so two user turns are outstanding | a send is refused while a turn is outstanding, as the disabled button shows | medium; not executed | `ChatComponent.EnterSendsDuringTurn` | `ChatComponent.ButtonTurnBound` |

The model keeps the Enter path as written (`ChatComponent.ChatUI.KeyPress`).
The guarded path is the send button (`ChatComponent.ChatUI.ClickSend`), for
which at most one outstanding turn is proved.
