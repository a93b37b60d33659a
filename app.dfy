/**
 * The top-level component (`App`, src/App.js lines 111-159): the queue state, the
 * handler `processQueueMessages` for text frames of the queue socket, and which
 * page the component shows.
 */
module AppComponent {
  import opened Wrappers

  /** The text frame that admits the user. */
  const Sentinel: string := "Connected"

  /** What the waiting page shows before any frame arrives. */
  const InitialPosition: string := "You are in the queue!"

  /** `queuePosition` and `waitingInQueue`. */
  datatype QueueState = QueueState(queuePosition: string, waitingInQueue: bool)

  /** The initial state (lines 113-114). */
  function Initial(): QueueState {
    QueueState(InitialPosition, true)
  }

  /** `processQueueMessages` (lines 142-148). */
  function OnQueueMessage(s: QueueState, message: string): QueueState {
    if message == Sentinel then s.(waitingInQueue := false) else s.(queuePosition := message)
  }

  /** The state after the queue socket delivered `frames`, in order. */
  function RunQueue(s: QueueState, frames: seq<string>): QueueState {
    if frames == [] then s else OnQueueMessage(RunQueue(s, frames[..|frames| - 1]), frames[|frames| - 1])
  }

  /** The most recent frame other than the sentinel, or `fallback` when there is none. */
  function LastPosition(frames: seq<string>, fallback: string): (r: string)
    ensures r == fallback || (r in frames && r != Sentinel)
    ensures Sentinel !in frames && frames != [] ==> r == frames[|frames| - 1]
  {
    if frames == [] then fallback
    else if frames[|frames| - 1] != Sentinel then frames[|frames| - 1]
    else LastPosition(frames[..|frames| - 1], fallback)
  }

  /** The chat page is mounted exactly when the component is no longer waiting (lines 152-156). */
  predicate ChatMounted(s: QueueState) {
    !s.waitingInQueue
  }

  /** What the waiting page displays, if it is shown at all. */
  function Displayed(s: QueueState): Option<string> {
    if s.waitingInQueue then Some(s.queuePosition) else None
  }

  /** How many frames of `frames` switch the page from waiting to chat, each mounting the chat component. */
  function ChatMounts(s: QueueState, frames: seq<string>): nat {
    if frames == [] then 0
    else
      var before := RunQueue(s, frames[..|frames| - 1]);
      ChatMounts(s, frames[..|frames| - 1]) +
        (if !ChatMounted(before) && ChatMounted(OnQueueMessage(before, frames[|frames| - 1])) then 1 else 0)
  }

  /**
   * The queue state after any frames: the position is the last non-sentinel frame
   * (last write wins), and the user still waits exactly when no sentinel arrived.
   */
  lemma {:induction false} RunQueueState(s: QueueState, frames: seq<string>)
    ensures RunQueue(s, frames) ==
              QueueState(LastPosition(frames, s.queuePosition), s.waitingInQueue && Sentinel !in frames)
  {
    if frames != [] {
      var init := frames[..|frames| - 1];
      RunQueueState(s, init);
      assert frames == init + [frames[|frames| - 1]];
    }
  }

  /** Handling `pre` then `post` is handling `pre + post`. */
  lemma {:induction false} RunQueueAppend(s: QueueState, pre: seq<string>, post: seq<string>)
    ensures RunQueue(s, pre + post) == RunQueue(RunQueue(s, pre), post)
  {
    if post == [] {
      assert pre + post == pre;
    } else {
      var init := post[..|post| - 1];
      RunQueueAppend(s, pre, init);
      assert (pre + post)[..|pre + post| - 1] == pre + init;
    }
  }

  /** Admission is irreversible: once admitted, no later frames make the user wait again. */
  lemma AdmissionMonotone(s: QueueState, pre: seq<string>, post: seq<string>)
    requires !RunQueue(s, pre).waitingInQueue
    ensures !RunQueue(s, pre + post).waitingInQueue
  {
    RunQueueAppend(s, pre, post);
    RunQueueState(RunQueue(s, pre), post);
  }

  /** From the start, the user is admitted exactly when the sentinel has arrived. */
  lemma AdmittedIffSentinel(frames: seq<string>)
    ensures !RunQueue(Initial(), frames).waitingInQueue <==> Sentinel in frames
  {
    RunQueueState(Initial(), frames);
  }

  /** Once admitted, later frames still overwrite the position, but the waiting page shows nothing again. */
  lemma AfterAdmissionNothingShown(s: QueueState, post: seq<string>)
    requires !s.waitingInQueue
    ensures Displayed(RunQueue(s, post)) == None
    ensures RunQueue(s, post).queuePosition == LastPosition(post, s.queuePosition)
  {
    RunQueueState(s, post);
  }

  /** The chat component is mounted once if the sentinel arrives, and never otherwise. */
  lemma {:induction false} ChatMountedOnce(frames: seq<string>)
    ensures ChatMounts(Initial(), frames) == if Sentinel in frames then 1 else 0
  {
    if frames != [] {
      var init, last := frames[..|frames| - 1], frames[|frames| - 1];
      ChatMountedOnce(init);
      RunQueueState(Initial(), init);
      assert frames == init + [last];
    }
  }

  /** Frames "Position 5", "Position 1", "Connected": admitted, last position kept, chat mounted once. */
  lemma QueueScenario()
    ensures var frames := ["Position 5", "Position 1", Sentinel];
      RunQueue(Initial(), frames) == QueueState("Position 1", false) &&
      ChatMounts(Initial(), frames) == 1
  {
    var frames := ["Position 5", "Position 1", Sentinel];
    RunQueueState(Initial(), frames);
    ChatMountedOnce(frames);
    assert frames[..2] == ["Position 5", "Position 1"];
  }

  /** The component's queue state as React holds it. */
  class App {
    var queuePosition: string
    var waitingInQueue: bool

    function State(): QueueState
      reads this
    {
      QueueState(queuePosition, waitingInQueue)
    }

    constructor ()
      ensures State() == Initial()
    {
      queuePosition := InitialPosition;
      waitingInQueue := true;
    }

    /** `processQueueMessages` (lines 142-148). */
    method ProcessQueueMessages(message: string)
      modifies this
      ensures State() == OnQueueMessage(old(State()), message)
      ensures message == Sentinel ==> !waitingInQueue && queuePosition == old(queuePosition)
      ensures message != Sentinel ==> queuePosition == message && waitingInQueue == old(waitingInQueue)
      ensures !old(waitingInQueue) ==> !waitingInQueue
    {
      if message == Sentinel {
        waitingInQueue := false;
      } else {
        queuePosition := message;
      }
    }
  }
}
