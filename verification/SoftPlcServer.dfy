/** The loop that takes complete requests off a connection's buffer (backend/plc_link/server.py). */
module SoftPlcServer {
  import opened Bytes
  import opened BitEdges
  import opened CellSpec
  import opened Mc3e
  import opened Framing
  import McServer
  import DM = DeviceMemory

  // Whether any of the answers reports success (end code 0).
  predicate AnyAccepted(responses: seq<seq<byte>>)
  {
    exists i :: 0 <= i < |responses| && DecodeU16(responses[i], 9) == 0
  }

  // The requests taken off so far, followed by what is still in the buffer.
  ghost predicate Taken(all: Cut, done: seq<seq<byte>>, buffer: seq<byte>)
  {
    all == Cut(done + Split(buffer).frames, Split(buffer).rest)
  }

  lemma TakeNext(all: Cut, done: seq<seq<byte>>, buffer: seq<byte>, needed: nat)
    requires Taken(all, done, buffer) && MinimumFrameLength(buffer) == Some(needed)
    requires StartsRequest(buffer) && needed <= |buffer|
    ensures Taken(all, done + [buffer[..needed]], buffer[needed..])
  {
    var frame, later := buffer[..needed], Split(buffer[needed..]);
    assert done + ([frame] + later.frames) == (done + [frame]) + later.frames;
  }

  lemma TakeNoMore(all: Cut, done: seq<seq<byte>>, buffer: seq<byte>)
    requires Taken(all, done, buffer)
    requires var needed := MinimumFrameLength(buffer);
             needed.None? || (StartsRequest(buffer) && |buffer| < needed.value)
    ensures all == Cut(done, buffer)
  {
    assert done + [] == done;
  }

  // The receive buffer and the writer of one connection.
  class Connection {
    var buffer: seq<byte>
    var written: seq<seq<byte>>

    constructor ()
      ensures buffer == [] && written == []
    {
      buffer, written := [], [];
    }
  }

  class SoftPlcServer {
    const memory: DM.DeviceMemory

    constructor (memory: DM.DeviceMemory)
      ensures this.memory == memory
    {
      this.memory := memory;
    }

    ghost function State(connection: Connection): Service
      reads memory, memory.edges, connection
    {
      Service(memory.Contents(), memory.edges.State(), connection.written)
    }

    method ConsumeFrames(connection: Connection, arrived: real) returns (wrote: bool, accepted: bool)
      modifies memory, memory.edges, connection
      ensures connection.buffer == Split(old(connection.buffer)).rest
      ensures State(connection) == Serve(old(State(connection)), Split(old(connection.buffer)).frames, arrived)
      ensures wrote == (|Split(old(connection.buffer)).frames| > 0)
      ensures |old(connection.written)| <= |connection.written|
      ensures accepted == exists i :: |old(connection.written)| <= i < |connection.written|
                                      && DecodeU16(connection.written[i], 9) == 0
    {
      wrote, accepted := false, false;
      ghost var start, all := State(connection), Split(connection.buffer);
      ghost var done: seq<seq<byte>>, answers: seq<seq<byte>> := [], [];
      WrittenTail(start.responses, answers);
      while true
        invariant Taken(all, done, connection.buffer)
        invariant State(connection) == Serve(start, done, arrived)
        invariant wrote == (|done| > 0)
        invariant connection.written == start.responses + answers
        invariant accepted == AnyAccepted(answers)
        decreases |connection.buffer|
      {
        var needed := MinimumFrameLength(connection.buffer);
        if needed.None? {
          TakeNoMore(all, done, connection.buffer);
          break;
        }
        if needed.value == 2 && !StartsRequest(connection.buffer) {
          connection.buffer := connection.buffer[1..];
          continue;
        }
        if |connection.buffer| < needed.value {
          TakeNoMore(all, done, connection.buffer);
          break;
        }
        var frame := connection.buffer[..needed.value];
        TakeNext(all, done, connection.buffer, needed.value);
        connection.buffer := connection.buffer[needed.value..];
        ServeSnoc(start, done, frame, arrived);
        done := done + [frame];
        var response := Answer(connection, frame, arrived);
        AcceptedSnoc(answers, response);
        WrittenSnoc(start.responses, answers, response);
        answers := answers + [response];
        wrote := true;
        if DecodeU16(response, 9) == 0 {
          accepted := true;
        }
      }
      WrittenTail(start.responses, answers);
      AcceptedAmong(connection.written, |start.responses|);
    }

    // Executes one request and writes its response.
    method Answer(connection: Connection, frame: seq<byte>, arrived: real) returns (response: seq<byte>)
      modifies memory, memory.edges, connection`written
      ensures State(connection) == ServeFrame(old(State(connection)), frame, arrived)
      ensures connection.written == old(connection.written) + [response]
    {
      response := McServer.HandleRequest(memory, frame, arrived);
      connection.written := connection.written + [response];
    }
  }

  lemma WrittenSnoc(before: seq<seq<byte>>, answers: seq<seq<byte>>, response: seq<byte>)
    ensures (before + answers) + [response] == before + (answers + [response])
  {
  }

  lemma WrittenTail(before: seq<seq<byte>>, answers: seq<seq<byte>>)
    ensures (before + answers)[|before|..] == answers && before + [] == before
  {
  }

  lemma AcceptedAmong(written: seq<seq<byte>>, n: nat)
    requires n <= |written|
    ensures AnyAccepted(written[n..]) <==> exists i :: n <= i < |written| && DecodeU16(written[i], 9) == 0
  {
    if i :| n <= i < |written| && DecodeU16(written[i], 9) == 0 {
      assert written[n..][i - n] == written[i];
    }
  }

  lemma AcceptedSnoc(responses: seq<seq<byte>>, response: seq<byte>)
    ensures AnyAccepted(responses + [response]) == (AnyAccepted(responses) || DecodeU16(response, 9) == 0)
  {
    var all := responses + [response];
    assert all[|responses|] == response;
    assert forall i :: 0 <= i < |responses| ==> all[i] == responses[i];
  }
}
