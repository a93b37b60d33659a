/**
 * The chat log of the chat component and the `setMessages` updater that folds one
 * streamed `chunk` frame into it (src/App.js, lines 50-69).
 *
 * Frames arrive already decoded. A chunk id is a plain string; a user entry has no
 * id at all, so no chunk can ever be merged into it.
 */
module ChatLog {
  import opened Wrappers

  /** One displayed entry: `{id, content, isUser}`. User entries carry `None`. */
  datatype Message = Message(id: Option<string>, content: string, isUser: bool)

  /** A decoded inbound chat frame: `{type: "chunk", id, content}`, `{type: "end"}`, or any other type. */
  datatype ChatFrame = Chunk(id: string, content: string) | End | Other

  /** `prev.findIndex(msg => msg.id === id)`: the first entry carrying `id`, or -1. */
  function FindIndex(log: seq<Message>, id: string): (r: int)
    ensures -1 <= r < |log|
    ensures r == -1 <==> forall k :: 0 <= k < |log| ==> log[k].id != Some(id)
    ensures r != -1 ==> log[r].id == Some(id)
    ensures forall k :: 0 <= k < r ==> log[k].id != Some(id)
  {
    if log == [] then -1
    else if log[0].id == Some(id) then 0
    else
      var i := FindIndex(log[1..], id);
      if i == -1 then -1 else i + 1
  }

  /**
   * The updater passed to `setMessages` for a chunk: append `content` to the first
   * entry carrying `id`, or add a new server entry at the end when none does.
   */
  function ApplyChunk(log: seq<Message>, id: string, content: string): (r: seq<Message>)
    ensures (forall k :: 0 <= k < |log| ==> log[k].id != Some(id)) ==>
              r == log + [Message(Some(id), content, false)]
    ensures forall i :: 0 <= i < |log| && log[i].id == Some(id) && FindIndex(log, id) == i ==>
              |r| == |log| &&
              r[i] == Message(log[i].id, log[i].content + content, log[i].isUser) &&
              forall k :: 0 <= k < |log| && k != i ==> r[k] == log[k]
  {
    var i := FindIndex(log, id);
    if i != -1 then
      log[i := log[i].(content := log[i].content + content)]
    else
      log + [Message(Some(id), content, false)]
  }

  /** One inbound frame's effect on the log: only a chunk changes it. */
  function StepLog(log: seq<Message>, f: ChatFrame): seq<Message> {
    match f
    case Chunk(id, content) => ApplyChunk(log, id, content)
    case _ => log
  }

  /** The log after `frames` have been processed in delivery order. */
  function Reassemble(log: seq<Message>, frames: seq<ChatFrame>): seq<Message> {
    if frames == [] then log
    else StepLog(Reassemble(log, frames[..|frames| - 1]), frames[|frames| - 1])
  }

  /** What the log displays for server id `x`: the content of the first entry carrying it. */
  function Lookup(log: seq<Message>, x: string): Option<string> {
    var i := FindIndex(log, x);
    if i == -1 then None else Some(log[i].content)
  }

  /** No two entries carry the same server id. */
  ghost predicate UniqueIds(log: seq<Message>) {
    forall i, j :: 0 <= i < j < |log| && log[i].id.Some? ==> log[i].id != log[j].id
  }

  /** The log only grows: old entries keep their place, id and kind, and their content only gets longer. */
  ghost predicate Extends(older: seq<Message>, newer: seq<Message>) {
    |older| <= |newer| &&
    forall k :: 0 <= k < |older| ==>
      newer[k].id == older[k].id && newer[k].isUser == older[k].isUser &&
      older[k].content <= newer[k].content
  }

  /** Whether some chunk of `frames` carries id `x`. */
  predicate HasChunk(frames: seq<ChatFrame>, x: string) {
    exists k :: 0 <= k < |frames| && IsChunkOf(frames[k], x)
  }

  predicate IsChunkOf(f: ChatFrame, x: string) {
    f.Chunk? && f.id == x
  }

  /** The contents of the chunks carrying `x`, concatenated in delivery order. */
  function ChunksOf(frames: seq<ChatFrame>, x: string): string {
    if frames == [] then ""
    else
      var last := frames[|frames| - 1];
      ChunksOf(frames[..|frames| - 1], x) + (if IsChunkOf(last, x) then last.content else "")
  }

  /** The server ids of `frames` in order of first appearance. */
  function FirstAppearance(frames: seq<ChatFrame>): seq<string> {
    if frames == [] then []
    else
      var order := FirstAppearance(frames[..|frames| - 1]);
      var last := frames[|frames| - 1];
      if last.Chunk? && last.id !in order then order + [last.id] else order
  }

  /** What an entry for `x` should display once `frames` follow a log where it displayed `before`. */
  function Expected(before: Option<string>, frames: seq<ChatFrame>, x: string): Option<string> {
    if before.None? && !HasChunk(frames, x) then None
    else Some(before.GetOr("") + ChunksOf(frames, x))
  }

  /** A chunk extends what its own id displays and leaves every other id's display alone. */
  lemma ApplyChunkLookup(log: seq<Message>, id: string, content: string, x: string)
    ensures Lookup(ApplyChunk(log, id, content), x) ==
              if x == id then Some(Lookup(log, x).GetOr("") + content) else Lookup(log, x)
  {
    var r := ApplyChunk(log, id, content);
    var i := FindIndex(log, id);
    if i != -1 {
      SameIdsSameIndex(log, r, x);
    } else {
      var m := Message(Some(id), content, false);
      assert r == log + [m];
      FindIndexAppend(log, m, x);
      if x == id {
        assert Lookup(log, x) == None && Lookup(r, x) == Some(content);
        assert "" + content == content;
      }
    }
  }

  /** findIndex on a log with one more entry at the end. */
  lemma FindIndexAppend(log: seq<Message>, m: Message, x: string)
    ensures FindIndex(log + [m], x) ==
              if FindIndex(log, x) != -1 then FindIndex(log, x)
              else if m.id == Some(x) then |log| else -1
  {
    var r, i, j := log + [m], FindIndex(log, x), FindIndex(log + [m], x);
    assert forall k :: 0 <= k < |log| ==> r[k] == log[k];
    if i != -1 {
      assert !(j < i) && !(i < j);
    } else if m.id == Some(x) {
      assert r[|log|].id == Some(x);
    } else {
      assert forall k :: 0 <= k < |r| ==> r[k].id != Some(x);
    }
  }

  /** findIndex only looks at the ids. */
  lemma SameIdsSameIndex(a: seq<Message>, b: seq<Message>, x: string)
    requires |a| == |b|
    requires forall k :: 0 <= k < |a| ==> a[k].id == b[k].id
    ensures FindIndex(a, x) == FindIndex(b, x)
  {
    var i, j := FindIndex(a, x), FindIndex(b, x);
    if i != -1 && j != -1 {
      assert !(i < j) && !(j < i);
    }
  }

  /** A chunk keeps server ids unique. */
  lemma ApplyChunkUnique(log: seq<Message>, id: string, content: string)
    requires UniqueIds(log)
    ensures UniqueIds(ApplyChunk(log, id, content))
  {
    var r := ApplyChunk(log, id, content);
    if FindIndex(log, id) != -1 {
      assert forall k :: 0 <= k < |log| ==> r[k].id == log[k].id;
    } else {
      forall i, j | 0 <= i < j < |r| && r[i].id.Some?
        ensures r[i].id != r[j].id
      {
        if j == |log| {
          assert r[j].id == Some(id) && r[i] == log[i];
        }
      }
    }
  }

  /** A chunk never removes, moves or shortens an entry. */
  lemma ApplyChunkExtends(log: seq<Message>, id: string, content: string)
    ensures Extends(log, ApplyChunk(log, id, content))
  {
  }

  lemma ExtendsTransitive(a: seq<Message>, b: seq<Message>, c: seq<Message>)
    requires Extends(a, b) && Extends(b, c)
    ensures Extends(a, c)
  {
    forall k | 0 <= k < |a|
      ensures a[k].content <= c[k].content
    {
      assert a[k].content == b[k].content[..|a[k].content|];
    }
  }

  /**
   * Per-id reassembly: whatever the interleaving with other ids, the entry for `x`
   * displays what it displayed before followed by `x`'s chunks in delivery order.
   */
  lemma {:induction false} ReassembleLookup(log: seq<Message>, frames: seq<ChatFrame>, x: string)
    ensures Lookup(Reassemble(log, frames), x) == Expected(Lookup(log, x), frames, x)
  {
    if frames != [] {
      var init, last := frames[..|frames| - 1], frames[|frames| - 1];
      assert init + [last] == frames;
      ReassembleLookup(log, init, x);
      HasChunkSnoc(init, last, x);
      var mid, before := Reassemble(log, init), Lookup(log, x);
      assert Reassemble(log, frames) == StepLog(mid, last);
      if IsChunkOf(last, x) {
        ApplyChunkLookup(mid, last.id, last.content, x);
        if !HasChunk(init, x) {
          NoChunkNoContent(init, x);
        }
        assert Lookup(mid, x).GetOr("") == before.GetOr("") + ChunksOf(init, x);
        assert ChunksOf(frames, x) == ChunksOf(init, x) + last.content;
        assert (before.GetOr("") + ChunksOf(init, x)) + last.content == before.GetOr("") + ChunksOf(frames, x);
      } else {
        if last.Chunk? {
          ApplyChunkLookup(mid, last.id, last.content, x);
        }
        assert Lookup(StepLog(mid, last), x) == Lookup(mid, x);
        assert HasChunk(frames, x) == HasChunk(init, x);
        assert ChunksOf(frames, x) == ChunksOf(init, x) + "";
        assert ChunksOf(frames, x) == ChunksOf(init, x);
      }
    } else {
      assert Lookup(log, x).GetOr("") + "" == Lookup(log, x).GetOr("");
    }
  }

  /** An id without chunks contributes nothing. */
  lemma {:induction false} NoChunkNoContent(frames: seq<ChatFrame>, x: string)
    requires !HasChunk(frames, x)
    ensures ChunksOf(frames, x) == ""
  {
    if frames != [] {
      var init, last := frames[..|frames| - 1], frames[|frames| - 1];
      assert init + [last] == frames;
      HasChunkSnoc(init, last, x);
      NoChunkNoContent(init, x);
    }
  }

  lemma HasChunkSnoc(frames: seq<ChatFrame>, f: ChatFrame, x: string)
    ensures HasChunk(frames + [f], x) <==> HasChunk(frames, x) || (f.Chunk? && f.id == x)
  {
    var g := frames + [f];
    if IsChunkOf(f, x) {
      assert IsChunkOf(g[|frames|], x);
    }
    if HasChunk(frames, x) {
      var k :| 0 <= k < |frames| && IsChunkOf(frames[k], x);
      assert g[k] == frames[k];
    }
    if HasChunk(g, x) {
      var k :| 0 <= k < |g| && IsChunkOf(g[k], x);
      if k < |frames| {
        assert g[k] == frames[k];
      }
    }
  }

  /** Starting from an empty log, each id displays exactly the concatenation of its chunks. */
  lemma ReassembleFromEmpty(frames: seq<ChatFrame>, x: string)
    ensures Lookup(Reassemble([], frames), x) == if HasChunk(frames, x) then Some(ChunksOf(frames, x)) else None
  {
    ReassembleLookup([], frames, x);
    assert "" + ChunksOf(frames, x) == ChunksOf(frames, x);
  }

  /** Processing any frames keeps server ids unique and only ever extends the log. */
  lemma {:induction false} ReassembleInvariant(log: seq<Message>, frames: seq<ChatFrame>)
    requires UniqueIds(log)
    ensures UniqueIds(Reassemble(log, frames))
    ensures Extends(log, Reassemble(log, frames))
  {
    if frames != [] {
      var init, last := frames[..|frames| - 1], frames[|frames| - 1];
      ReassembleInvariant(log, init);
      var mid := Reassemble(log, init);
      if last.Chunk? {
        ApplyChunkUnique(mid, last.id, last.content);
        ApplyChunkExtends(mid, last.id, last.content);
        ExtendsTransitive(log, mid, Reassemble(log, frames));
      }
    }
  }

  /**
   * From an empty log, there is one server entry per distinct id, in the order in
   * which the ids first appeared.
   */
  lemma {:induction false} ReassembleOrder(frames: seq<ChatFrame>)
    ensures var r := Reassemble([], frames);
      |r| == |FirstAppearance(frames)| &&
      forall k :: 0 <= k < |r| ==> r[k].id == Some(FirstAppearance(frames)[k]) && !r[k].isUser
  {
    if frames != [] {
      var init, last := frames[..|frames| - 1], frames[|frames| - 1];
      ReassembleOrder(init);
      var mid, order := Reassemble([], init), FirstAppearance(init);
      if last.Chunk? {
        var found := FindIndex(mid, last.id);
        if last.id in order {
          var k :| 0 <= k < |order| && order[k] == last.id;
          assert mid[k].id == Some(last.id);
        } else {
          assert forall k :: 0 <= k < |mid| ==> mid[k].id != Some(last.id);
        }
      }
    }
  }

  /** The two-id interleaving `a:"A1"`, `b:"B1"`, `a:"A2"` yields `[a:"A1A2", b:"B1"]`. */
  lemma InterleavedIds()
    ensures Reassemble([], [Chunk("a", "A1"), Chunk("b", "B1"), Chunk("a", "A2")]) ==
              [Message(Some("a"), "A1A2", false), Message(Some("b"), "B1", false)]
  {
    var f := [Chunk("a", "A1"), Chunk("b", "B1"), Chunk("a", "A2")];
    assert f[..2] == [Chunk("a", "A1"), Chunk("b", "B1")] && f[..2][..1] == [Chunk("a", "A1")];
    var one := Reassemble([], [Chunk("a", "A1")]);
    assert [Chunk("a", "A1")][..0] == [];
    assert one == [Message(Some("a"), "A1", false)];
    var two := Reassemble([], f[..2]);
    assert two == [Message(Some("a"), "A1", false), Message(Some("b"), "B1", false)];
    assert FindIndex(two, "a") == 0;
    assert Reassemble([], f) == ApplyChunk(two, "a", "A2");
    assert "A1" + "A2" == "A1A2";
  }
}
