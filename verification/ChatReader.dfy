/** The browser's incremental reader of the chat stream: byte chunks, a streaming decoder, a carried buffer, a
    callback. */
module ChatReader {
  import opened ChatFrames
  import Utf8

  type Chunk = seq<Utf8.Byte>

  function Bytes(chunks: seq<Chunk>): Chunk {
    if chunks == [] then [] else chunks[0] + Bytes(chunks[1..])
  }

  lemma {:induction false} BytesSnoc(chunks: seq<Chunk>, i: nat)
    requires i < |chunks|
    ensures Bytes(chunks[..i + 1]) == Bytes(chunks[..i]) + chunks[i]
    decreases i
  {
    assert chunks[..i + 1][1..] == chunks[1..][..i];
    if i == 0 {
      assert chunks[..1][1..] == [];
    } else {
      assert chunks[..i][1..] == chunks[1..][..i - 1];
      BytesSnoc(chunks[1..], i - 1);
      assert chunks[1..][..i - 1 + 1] == chunks[1..][..i];
    }
  }

  /** The text decoded from some chunks. */
  function TextOf(chunks: seq<Chunk>): string { Utf8.StreamDecode(Bytes(chunks)).0 }

  datatype Status = Finished | Stopped | Failed

  /** What has been read so far: the decoder's pending bytes, the buffer and the delivered events. */
  ghost predicate ReadSoFar(chunks: seq<Chunk>, pending: Chunk, buffer: string, events: seq<Event>) {
    && Utf8.StreamDecode(Bytes(chunks)).1 == pending
    && Blocks(TextOf(chunks)).1 == buffer
    && ReadText(TextOf(chunks)) == Outcome(events, true)
  }

  /** Reading one more chunk turns the old buffer and the new text into blocks. */
  lemma NextChunk(chunks: seq<Chunk>, i: nat, pending: Chunk, buffer: string, events: seq<Event>)
    requires i < |chunks| && ReadSoFar(chunks[..i], pending, buffer, events)
    ensures var (text, kept) := Utf8.StreamDecode(pending + chunks[i]);
            var (blocks, leftover) := Blocks(buffer + text);
            && Utf8.StreamDecode(Bytes(chunks[..i + 1])).1 == kept
            && Blocks(TextOf(chunks[..i + 1])).1 == leftover
            && ReadText(TextOf(chunks[..i + 1])) == Outcome(events + ReadBlocks(blocks).events, ReadBlocks(blocks).ok)
  {
    hide Blocks;
    hide ReadBlocks;
    BytesSnoc(chunks, i);
    Utf8.StreamConcat(Bytes(chunks[..i]), chunks[i]);
    var (text, kept) := Utf8.StreamDecode(pending + chunks[i]);
    assert TextOf(chunks[..i + 1]) == TextOf(chunks[..i]) + text;
    BlocksConcat(TextOf(chunks[..i]), text);
    ReadBlocksConcat(Blocks(TextOf(chunks[..i])).0, Blocks(buffer + text).0);
  }

  /** More chunks only add events, and none once a block is malformed. */
  lemma {:induction false} MoreChunks(chunks: seq<Chunk>, i: nat, j: nat)
    requires i <= j <= |chunks|
    ensures ReadText(TextOf(chunks[..i])).events <= ReadText(TextOf(chunks[..j])).events
    ensures !ReadText(TextOf(chunks[..i])).ok ==> ReadText(TextOf(chunks[..j])) == ReadText(TextOf(chunks[..i]))
    decreases j - i
  {
    hide Blocks;
    hide ReadBlocks;
    if i < j {
      BytesSnoc(chunks, i);
      Utf8.StreamConcat(Bytes(chunks[..i]), chunks[i]);
      var kept := Utf8.StreamDecode(Bytes(chunks[..i])).1;
      var text := Utf8.StreamDecode(kept + chunks[i]).0;
      BlocksConcat(TextOf(chunks[..i]), text);
      ReadBlocksConcat(Blocks(TextOf(chunks[..i])).0, Blocks(Blocks(TextOf(chunks[..i])).1 + text).0);
      MoreChunks(chunks, i + 1, j);
    }
  }

  /** `readChatStream`. The read is stopped before chunk `stopAt`, or never when it lies beyond the
      chunks. Whatever the chunks are, the callback receives exactly the events of parsing the text
      read in one go. */
  method ReadChatStream(chunks: seq<Chunk>, stopAt: nat) returns (events: seq<Event>, status: Status)
    ensures var seen := if stopAt <= |chunks| then stopAt else |chunks|;
            var outcome := ReadText(TextOf(chunks[..seen]));
            && events == outcome.events
            && status == if !outcome.ok then Failed else if stopAt <= |chunks| then Stopped else Finished
  {
    hide Blocks;
    hide ReadBlocks;
    var buffer := "";
    var pending: Chunk := [];
    events := [];
    var i := 0;
    StartOfStream(chunks);
    while true
      invariant 0 <= i <= |chunks| && i <= stopAt
      invariant ReadSoFar(chunks[..i], pending, buffer, events)
      decreases |chunks| - i
    {
      if i == stopAt {
        return events, Stopped;
      }
      if i == |chunks| {
        break;
      }
      NextChunk(chunks, i, pending, buffer, events);
      var (text, kept) := Utf8.StreamDecode(pending + chunks[i]);
      pending, buffer := kept, buffer + text;
      var ok;
      buffer, events, ok := DrainBuffer(buffer, events);
      i := i + 1;
      if !ok {
        MoreChunks(chunks, i, if stopAt <= |chunks| then stopAt else |chunks|);
        return events, Failed;
      }
    }
    status := Finished;
  }

  lemma StartOfStream(chunks: seq<Chunk>)
    ensures ReadSoFar(chunks[..0], [], "", [])
  {
    assert chunks[..0] == [];
  }

  /** The inner loop: cut complete blocks off the buffer and deliver them. */
  method DrainBuffer(start: string, before: seq<Event>) returns (buffer: string, events: seq<Event>, ok: bool)
    ensures var outcome := ReadBlocks(Blocks(start).0);
            && events == before + outcome.events && ok == outcome.ok
            && (ok ==> buffer == Blocks(start).1)
  {
    hide Boundary;
    hide Dispatch;
    buffer, events := start, before;
    var boundary := Boundary(buffer);
    while boundary < |buffer|
      invariant boundary == Boundary(buffer)
      invariant Blocks(buffer).1 == Blocks(start).1
      invariant before + ReadBlocks(Blocks(start).0).events == events + ReadBlocks(Blocks(buffer).0).events
      invariant ReadBlocks(Blocks(start).0).ok == ReadBlocks(Blocks(buffer).0).ok
      decreases |buffer|
    {
      var block := buffer[..boundary];
      ghost var later := ReadBlocks(Blocks(buffer[boundary + 2..]).0);
      assert Blocks(buffer).0[1..] == Blocks(buffer[boundary + 2..]).0;
      match Dispatch(block) {
        case Nothing =>
        case Deliver(event) =>
          assert events + ([event] + later.events) == events + [event] + later.events;
          events := events + [event];
        case Malformed =>
          ok := false;
          assert events + [] == events;
          return;
      }
      buffer := buffer[boundary + 2..];
      boundary := Boundary(buffer);
    }
    ok := true;
    assert events + [] == events;
  }

  // ---- End to end --------------------------------------------------------------------------------

  /** However the printed bytes are cut into chunks, the reader recovers exactly the printed events
      and keeps nothing back. */
  lemma EndToEnd(events: seq<Event>, chunks: seq<Chunk>)
    requires forall e | e in events :: Printable(e)
    requires Bytes(chunks) == Utf8.Encode(Frames(events))
    ensures ReadSoFar(chunks, [], "", events)
  {
    hide Blocks;
    hide ReadBlocks;
    Utf8.StreamRoundTrip(Frames(events));
    FramesRoundTrip(events);
  }

  /** A reader that has received only some of the printed bytes has a prefix of the events, and no failure. */
  lemma PartWay(events: seq<Event>, chunks: seq<Chunk>)
    requires forall e | e in events :: Printable(e)
    requires Bytes(chunks) <= Utf8.Encode(Frames(events))
    ensures ReadText(TextOf(chunks)).ok && ReadText(TextOf(chunks)).events <= events
  {
    hide Frames;
    hide ReadText;
    hide Bytes;
    var n, all := |chunks|, chunks + [Utf8.Encode(Frames(events))[|Bytes(chunks)|..]];
    BytesSnoc(all, n);
    assert all[..n] == chunks && all[..n + 1] == all;
    EndToEnd(events, all);
    MoreChunks(all, n, n + 1);
  }
}
