/**
 Cutting a byte stream into requests (backend/plc_link/server.py, _consume_frames), and why the
 way the stream arrives in chunks does not matter.
 */
module Framing {
  import opened Bytes
  import opened BitEdges
  import opened CellSpec
  import opened Mc3e
  import opened McProperties

  predicate StartsRequest(buffer: seq<byte>)
  {
    |buffer| >= 2 && buffer[0] == 0x50 && buffer[1] == 0x00
  }

  // Bytes needed for the request at the front; 2 marks a front that is no request.
  function MinimumFrameLength(buffer: seq<byte>): (needed: Option<nat>)
  {
    if |buffer| < 9 then None
    else if !StartsRequest(buffer) then Some(2)
    else Some(9 + DecodeU16(buffer, 7))
  }

  datatype Cut = Cut(frames: seq<seq<byte>>, rest: seq<byte>)

  // The complete requests of a buffer and the bytes kept for the next chunk.
  function Split(buffer: seq<byte>): (cut: Cut)
    decreases |buffer|
  {
    if |buffer| < 9 then Cut([], buffer)
    else if !StartsRequest(buffer) then Split(buffer[1..])
    else
      var needed := 9 + DecodeU16(buffer, 7);
      if |buffer| < needed then Cut([], buffer)
      else
        var later := Split(buffer[needed..]);
        Cut([buffer[..needed]] + later.frames, later.rest)
  }

  // Every request that is cut out begins with 50 00 and is as long as its length field says, and what
  // is kept is too short to tell or is the beginning of such a request.
  lemma {:induction false} CutsWhole(buffer: seq<byte>)
    ensures forall i :: 0 <= i < |Split(buffer).frames| ==> WholeRequest(Split(buffer).frames[i])
    ensures |Split(buffer).rest| < 9 || PartOfRequest(Split(buffer).rest)
    decreases |buffer|
  {
    if |buffer| >= 9 {
      if !StartsRequest(buffer) {
        CutsWhole(buffer[1..]);
      } else if |buffer| >= 9 + DecodeU16(buffer, 7) {
        CutsWhole(buffer[9 + DecodeU16(buffer, 7)..]);
      }
    }
  }

  predicate WholeRequest(frame: seq<byte>)
  {
    |frame| >= 9 && frame[0] == 0x50 && frame[1] == 0x00
    && |frame| == 9 + frame[7] as int + 0x100 * frame[8] as int
  }

  predicate PartOfRequest(rest: seq<byte>)
  {
    |rest| >= 9 && rest[0] == 0x50 && rest[1] == 0x00 && |rest| < 9 + rest[7] as int + 0x100 * rest[8] as int
  }

  // ---------- chunks ----------

  lemma {:induction false} SplitConcat(a: seq<byte>, b: seq<byte>)
    ensures var first := Split(a);
            var second := Split(first.rest + b);
            Split(a + b) == Cut(first.frames + second.frames, second.rest)
    decreases |a|
  {
    if |a| < 9 {
    } else if !StartsRequest(a) {
      assert (a + b)[1..] == a[1..] + b;
      SplitConcat(a[1..], b);
    } else {
      var needed := 9 + DecodeU16(a, 7);
      assert DecodeU16(a + b, 7) == DecodeU16(a, 7);
      if |a| >= needed {
        SplitWhole(a, b, needed);
      }
    }
  }

  // The case of a complete request at the front.
  lemma SplitWhole(a: seq<byte>, b: seq<byte>, needed: nat)
    requires |a| >= 9 && StartsRequest(a) && needed == 9 + DecodeU16(a, 7) <= |a|
    requires DecodeU16(a + b, 7) == DecodeU16(a, 7)
    ensures var first := Split(a);
            var second := Split(first.rest + b);
            Split(a + b) == Cut(first.frames + second.frames, second.rest)
    decreases |a|, 0
  {
    assert (a + b)[needed..] == a[needed..] + b && (a + b)[..needed] == a[..needed];
    SplitConcat(a[needed..], b);
    var later := Split(a[needed..]);
    var second := Split(later.rest + b);
    assert [a[..needed]] + (later.frames + second.frames) == ([a[..needed]] + later.frames) + second.frames;
  }

  function Concat(chunks: seq<seq<byte>>): (all: seq<byte>)
  {
    if |chunks| == 0 then [] else Concat(chunks[..|chunks| - 1]) + chunks[|chunks| - 1]
  }

  // Frames cut out, and bytes left over, when the chunks arrive one by one.
  function SplitChunks(chunks: seq<seq<byte>>): (cut: Cut)
  {
    if |chunks| == 0 then Cut([], [])
    else
      var before := SplitChunks(chunks[..|chunks| - 1]);
      var now := Split(before.rest + chunks[|chunks| - 1]);
      Cut(before.frames + now.frames, now.rest)
  }

  // For every stream and every way of cutting it into chunks: the same requests and the same
  // leftover bytes as for the stream in one piece.
  lemma {:induction false} ChunkingIrrelevant(chunks: seq<seq<byte>>)
    ensures SplitChunks(chunks) == Split(Concat(chunks))
  {
    if |chunks| > 0 {
      ChunkingIrrelevant(chunks[..|chunks| - 1]);
      SplitConcat(Concat(chunks[..|chunks| - 1]), chunks[|chunks| - 1]);
    }
  }

  // ---------- serving ----------

  // One connection's view of the server: memory, log, and the responses written.
  datatype Service = Service(cells: Cells, log: Log, responses: seq<seq<byte>>)

  function ServeFrame(s: Service, frame: seq<byte>, now: real): (next: Service)
  {
    var x := ExecuteFrame(s.cells, frame);
    Service(x.cells, RecordChanges(s.log, x.changes, now), s.responses + [Response(frame, x.data)])
  }

  function Serve(s: Service, frames: seq<seq<byte>>, now: real): (next: Service)
  {
    if |frames| == 0 then s
    else ServeFrame(Serve(s, frames[..|frames| - 1], now), frames[|frames| - 1], now)
  }

  lemma ServeSnoc(s: Service, done: seq<seq<byte>>, frame: seq<byte>, now: real)
    ensures Serve(s, done + [frame], now) == ServeFrame(Serve(s, done, now), frame, now)
  {
    assert (done + [frame])[..|done|] == done;
  }

  lemma {:induction false} ServeConcat(s: Service, a: seq<seq<byte>>, b: seq<seq<byte>>, now: real)
    ensures Serve(s, a + b, now) == Serve(Serve(s, a, now), b, now)
  {
    if |b| == 0 {
      assert a + b == a;
    } else {
      ServeConcat(s, a, b[..|b| - 1], now);
      FrontOfConcat(a, b);
    }
  }

  lemma NextServed(s: Service, frame: seq<byte>, now: real)
    ensures var next := ServeFrame(s, frame, now);
            && next.responses == s.responses + [HandledResponse(s.cells, frame)]
            && next.cells == ExecuteFrame(s.cells, frame).cells
  {
  }

  lemma OneMoreResponse(s: Service, frame: seq<byte>, now: real)
    ensures var next := ServeFrame(s, frame, now);
            |next.responses| == |s.responses| + 1 && next.responses[..|s.responses|] == s.responses
  {
  }

  lemma PrefixOfPrefix<T>(a: seq<T>, b: seq<T>, c: seq<T>)
    requires |a| <= |b| <= |c| && c[..|b|] == b && b[..|a|] == a
    ensures c[..|a|] == a
  {
  }

  // Responses stay as they are while more requests are served.
  lemma {:induction false} EarlierResponses(s: Service, frames: seq<seq<byte>>, now: real, m: nat)
    requires m <= |frames|
    ensures var some, all := Serve(s, frames[..m], now).responses, Serve(s, frames, now).responses;
            && |some| == |s.responses| + m && |all| == |s.responses| + |frames| && all[..|some|] == some
    decreases |frames|
  {
    if |frames| == 0 {
      assert frames[..m] == frames;
    } else {
      var n := |frames| - 1;
      var before := Serve(s, frames[..n], now);
      OneMoreResponse(before, frames[n], now);
      assert Serve(s, frames, now) == ServeFrame(before, frames[n], now);
      if m <= n {
        EarlierResponses(s, frames[..n], now, m);
        assert frames[..n][..m] == frames[..m];
        PrefixOfPrefix(Serve(s, frames[..m], now).responses, before.responses, Serve(s, frames, now).responses);
      } else {
        EarlierResponses(s, frames[..n], now, n);
        assert frames[..m] == frames;
      }
    }
  }

  // Requests are answered one by one in their order, each in the memory the ones before have left.
  lemma ServedInOrder(s: Service, frames: seq<seq<byte>>, now: real, k: nat)
    requires k < |frames|
    ensures var before, responses := Serve(s, frames[..k], now), Serve(s, frames, now).responses;
            && |responses| == |s.responses| + |frames|
            && responses[|s.responses| + k] == HandledResponse(before.cells, frames[k])
            && Serve(s, frames[..k + 1], now).cells == ExecuteFrame(before.cells, frames[k]).cells
  {
    EarlierResponses(s, frames, now, k);
    EarlierResponses(s, frames, now, k + 1);
    assert frames[..k + 1] == frames[..k] + [frames[k]];
    ServeSnoc(s, frames[..k], frames[k], now);
    NextServed(Serve(s, frames[..k], now), frames[k], now);
  }

  datatype Arrival = Arrival(chunk: seq<byte>, time: real)

  function Chunks(arrivals: seq<Arrival>): (chunks: seq<seq<byte>>)
    ensures |chunks| == |arrivals|
  {
    seq(|arrivals|, i requires 0 <= i < |arrivals| => arrivals[i].chunk)
  }

  lemma ChunksFront(arrivals: seq<Arrival>)
    requires |arrivals| > 0
    ensures Chunks(arrivals)[..|arrivals| - 1] == Chunks(arrivals[..|arrivals| - 1])
    ensures Chunks(arrivals)[|arrivals| - 1] == arrivals[|arrivals| - 1].chunk
  {
  }

  // Every request is executed at the time of the chunk that completed it.
  function Session(s: Service, arrivals: seq<Arrival>): (next: Service)
  {
    if |arrivals| == 0 then s
    else
      var front, last := arrivals[..|arrivals| - 1], arrivals[|arrivals| - 1];
      Serve(Session(s, front), Split(SplitChunks(Chunks(front)).rest + last.chunk).frames, last.time)
  }

  function Bare(edges: seq<BitEdge>): (bare: seq<BitEdge>)
    ensures |bare| == |edges|
  {
    seq(|edges|, i requires 0 <= i < |edges| => edges[i].(mono := 0.0))
  }

  // A log without its times.
  function Timeless(log: Log): (bare: Log)
  {
    log.(lastMono := map[], edges := Bare(log.edges))
  }

  lemma BareNewest(edges: seq<BitEdge>, edge: BitEdge, maxlen: nat)
    ensures Bare(Newest(edges + [edge], maxlen)) == Newest(Bare(edges) + [edge.(mono := 0.0)], maxlen)
  {
    assert Bare(edges + [edge]) == Bare(edges) + [edge.(mono := 0.0)];
  }

  ghost predicate SameButTimes(a: Service, b: Service)
  {
    && a.cells == b.cells && a.responses == b.responses
    && Timeless(a.log) == Timeless(b.log)
  }

  // Recording as far as it does not concern times.
  function RecordBare(log: Log, key: Key, value: int): (next: Log)
  {
    if key !in log.watched then log
    else log.(counter := log.counter + 1,
              edges := Newest(log.edges + [BitEdge(log.counter + 1, key, Truth(value), 0.0)], log.maxlen))
  }

  lemma RecordTimeless(log: Log, key: Key, value: int, now: real)
    ensures Timeless(RecordLog(log, key, value, now)) == RecordBare(Timeless(log), key, value)
  {
    if key in log.watched {
      BareNewest(log.edges, BitEdge(log.counter + 1, key, Truth(value), Stamp(log, key, now)), log.maxlen);
    }
  }

  lemma {:induction false} ChangesTimeless(a: Log, b: Log, changes: seq<Change>, now: real, other: real)
    requires Timeless(a) == Timeless(b)
    ensures Timeless(RecordChanges(a, changes, now)) == Timeless(RecordChanges(b, changes, other))
  {
    if |changes| > 0 {
      var n := |changes| - 1;
      ChangesTimeless(a, b, changes[..n], now, other);
      RecordTimeless(RecordChanges(a, changes[..n], now), changes[n].key, changes[n].value, now);
      RecordTimeless(RecordChanges(b, changes[..n], other), changes[n].key, changes[n].value, other);
    }
  }

  lemma {:induction false} ServeTimeless(a: Service, b: Service, frames: seq<seq<byte>>, now: real, other: real)
    requires SameButTimes(a, b)
    ensures SameButTimes(Serve(a, frames, now), Serve(b, frames, other))
  {
    if |frames| > 0 {
      var n := |frames| - 1;
      ServeTimeless(a, b, frames[..n], now, other);
      var a', b' := Serve(a, frames[..n], now), Serve(b, frames[..n], other);
      ChangesTimeless(a'.log, b'.log, ExecuteFrame(a'.cells, frames[n]).changes, now, other);
    }
  }

  // Chunking independence of the whole server: however a stream is cut and whenever the pieces
  // arrive, the responses, the memory, and the logged edges (up to their times) are those of
  // serving the whole stream in one piece.
  lemma {:induction false} ServedAlike(s: Service, arrivals: seq<Arrival>, time: real)
    ensures SameButTimes(Session(s, arrivals), Serve(s, Split(Concat(Chunks(arrivals))).frames, time))
  {
    ChunkingIrrelevant(Chunks(arrivals));
    if |arrivals| > 0 {
      var front, last := arrivals[..|arrivals| - 1], arrivals[|arrivals| - 1];
      ServedAlike(s, front, time);
      ChunkingIrrelevant(Chunks(front));
      ChunksFront(arrivals);
      var earlier, arrived := SplitChunks(Chunks(front)), Split(SplitChunks(Chunks(front)).rest + last.chunk);
      ServeConcat(s, earlier.frames, arrived.frames, time);
      ServeTimeless(Session(s, front), Serve(s, earlier.frames, time), arrived.frames, last.time, time);
    }
  }

  // ---------- pipelining and resynchronisation ----------

  // No request can start inside these bytes.
  predicate Garbage(bytes: seq<byte>)
  {
    forall i :: 0 <= i < |bytes| - 1 ==> !(bytes[i] == 0x50 && bytes[i + 1] == 0x00)
  }

  lemma {:induction false} SkipGarbage(garbage: seq<byte>, frame: seq<byte>)
    requires Garbage(garbage) && |frame| >= 9 && frame[0] == 0x50
    ensures Split(garbage + frame) == Split(frame)
    decreases |garbage|
  {
    if |garbage| == 0 {
      assert garbage + frame == frame;
    } else {
      var all := garbage + frame;
      assert all[1..] == garbage[1..] + frame;
      assert all[1] == if |garbage| > 1 then garbage[1] else frame[0];
      SkipGarbage(garbage[1..], frame);
    }
  }

  lemma {:induction false} TrailingGarbage(garbage: seq<byte>)
    requires Garbage(garbage)
    ensures Split(garbage) == Cut([], if |garbage| > 8 then garbage[|garbage| - 8..] else garbage)
  {
    if |garbage| >= 9 {
      TrailingGarbage(garbage[1..]);
    }
  }

  datatype Sent = Sent(garbage: seq<byte>, request: McRequest)

  predicate Sendable(items: seq<Sent>)
  {
    forall i :: 0 <= i < |items| ==>
      Garbage(items[i].garbage) && items[i].request.head < 0x100_0000 && |items[i].request.payload| <= 0xFFFF - 12
  }

  function Stream(items: seq<Sent>, tail: seq<byte>): (bytes: seq<byte>)
    requires Sendable(items)
  {
    if |items| == 0 then tail
    else items[0].garbage + (BuildRequest(items[0].request).value + Stream(items[1..], tail))
  }

  function Frames(items: seq<Sent>): (frames: seq<seq<byte>>)
    requires Sendable(items)
    ensures |frames| == |items|
  {
    seq(|items|, i requires 0 <= i < |items| => BuildRequest(items[i].request).value)
  }

  lemma SplitBuilt(r: McRequest, behind: seq<byte>)
    requires r.head < 0x100_0000 && |r.payload| <= 0xFFFF - 12
    ensures var f := BuildRequest(r).value;
            Split(f + behind) == Cut([f] + Split(behind).frames, Split(behind).rest)
  {
    var f := BuildRequest(r).value;
    BuiltBytes(r);
    assert DecodeU16(f + behind, 7) == DecodeU16(f, 7) == 12 + |r.payload|;
    assert (f + behind)[|f|..] == behind && (f + behind)[..|f|] == f;
  }

  // Requests pipelined with garbage between, before and behind them are cut out exactly and in
  // order, each parses to what was sent, and fewer than nine bytes of the tail are kept.
  lemma {:induction false} PipelinedRequests(items: seq<Sent>, tail: seq<byte>)
    requires Sendable(items) && Garbage(tail)
    ensures Split(Stream(items, tail)) == Cut(Frames(items), if |tail| > 8 then tail[|tail| - 8..] else tail)
    ensures forall i :: 0 <= i < |items| ==> ParseRequest(Frames(items)[i]) == Some(items[i].request)
  {
    if |items| == 0 {
      TrailingGarbage(tail);
    } else {
      PipelinedRequests(items[1..], tail);
      FirstRequest(items[0], Stream(items[1..], tail));
      FramesFront(items);
    }
    FramesParse(items);
  }

  lemma FramesFront(items: seq<Sent>)
    requires Sendable(items) && |items| > 0
    ensures Frames(items) == [BuildRequest(items[0].request).value] + Frames(items[1..])
  {
  }

  lemma FramesParse(items: seq<Sent>)
    requires Sendable(items)
    ensures forall i :: 0 <= i < |items| ==> ParseRequest(Frames(items)[i]) == Some(items[i].request)
  {
    forall i | 0 <= i < |items| ensures ParseRequest(Frames(items)[i]) == Some(items[i].request) {
      ParsedBack(items[i].request);
    }
  }

  // Garbage, a request, and whatever follows.
  lemma FirstRequest(item: Sent, behind: seq<byte>)
    requires Garbage(item.garbage) && item.request.head < 0x100_0000 && |item.request.payload| <= 0xFFFF - 12
    ensures var f := BuildRequest(item.request).value;
            Split(item.garbage + (f + behind)) == Cut([f] + Split(behind).frames, Split(behind).rest)
  {
    BuiltBytes(item.request);
    SkipGarbage(item.garbage, BuildRequest(item.request).value + behind);
    SplitBuilt(item.request, behind);
  }
}
